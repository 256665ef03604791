/** Publishing an agent's records and removing them again. */
module Publishing {
  import opened Wrappers
  import opened Text
  import opened OrderedDict
  import opened ZoneStore

  /** Whether a backend can store private-use SVCB parameters. */
  datatype Support = Yes | No | Unknown

  type Params = seq<Item<string, string>>

  datatype Agent = Agent(
    name: string, domain: string, target: string, params: Params,
    capabilities: seq<string>, version: string, description: string, useCases: seq<string>, category: string,
    walkable: bool)

  const STANDARD: set<string> := {"mandatory", "alpn", "no-default-alpn", "port", "ipv4hint", "ipv6hint", "ech"}

  const DEMOTED := "dnsaid_"

  function Fqdn(name: string, domain: string): string {
    name + "." + domain
  }

  function WalkableName(name: string): string {
    name + "._agents"
  }

  function LegacyName(name: string, protocol: string): string {
    "_" + name + "._" + protocol + "._agents"
  }

  function Standard(ps: Params): Params {
    if ps == [] then []
    else if ps[|ps| - 1].key in STANDARD then Standard(ps[..|ps| - 1]) + [ps[|ps| - 1]]
    else Standard(ps[..|ps| - 1])
  }

  function Custom(ps: Params): Params {
    if ps == [] then []
    else if ps[|ps| - 1].key in STANDARD then Custom(ps[..|ps| - 1])
    else Custom(ps[..|ps| - 1]) + [ps[|ps| - 1]]
  }

  function Demote(p: Item<string, string>): string {
    DEMOTED + p.key + "=" + p.val
  }

  function Demoted(ps: Params): seq<string> {
    if ps == [] then [] else Demoted(ps[..|ps| - 1]) + [Demote(ps[|ps| - 1])]
  }

  function Metadata(a: Agent): seq<string> {
    (if a.capabilities != [] then ["capabilities=" + Join(a.capabilities, ",")] else [])
    + ["version=" + a.version]
    + (if a.description != [] then ["description=" + a.description] else [])
    + (if a.useCases != [] then ["use_cases=" + Join(a.useCases, ",")] else [])
    + (if a.category != [] then ["category=" + a.category] else [])
  }

  // ---- publishing ----

  /** The primary SVCB record: the parameters it got and those left for TXT, or an exception. */
  function WritePrimary(s: Store, answer: Responses, a: Agent, support: Support): (Store, Option<(Params, Params)>) {
    var whole, part := Svcb(1, a.target, a.params), Svcb(1, a.target, Standard(a.params));
    match support
    case Yes =>
      var (s1, ok) := CreateSvcb(s, answer, a.domain, a.name, whole);
      (s1, if ok then Some((a.params, [])) else None)
    case No =>
      var (s1, ok) := CreateSvcb(s, answer, a.domain, a.name, part);
      (s1, if ok then Some((Standard(a.params), Custom(a.params))) else None)
    case Unknown =>
      var (s1, native) := if Custom(a.params) != [] then CreateSvcb(s, answer, a.domain, a.name, whole) else (s, false);
      if native then (s1, Some((a.params, [])))
      else
        var (s2, ok) := CreateSvcb(s1, answer, a.domain, a.name, part);
        (s2, if ok then Some((Standard(a.params), Custom(a.params))) else None)
  }

  /** The alias pointing at the primary owner is optional: failing to write it is not an error. */
  function WriteAlias(s: Store, answer: Responses, a: Agent): Store {
    if a.walkable then
      CreateSvcb(s, answer, a.domain, WalkableName(a.name), Svcb(0, Fqdn(a.name, a.domain) + ".", [])).0
    else s
  }

  function Publish(s: Store, answer: Responses, a: Agent, support: Support): (Store, bool) {
    var (s1, primary) := WritePrimary(s, answer, a, support);
    if primary.None? then (s1, false)
    else
      var (s2, ok) := CreateTxt(s1, answer, a.domain, a.name, Metadata(a) + Demoted(primary.value.1));
      if !ok then (s2, false) else (WriteAlias(s2, answer, a), true)
  }

  method SplitByKey(ps: Params) returns (standard: Params, custom: Params)
    ensures standard == Standard(ps) && custom == Custom(ps)
  {
    standard, custom := [], [];
    var i := 0;
    while i < |ps|
      invariant 0 <= i <= |ps| && standard == Standard(ps[..i]) && custom == Custom(ps[..i])
    {
      assert ps[..i + 1][..i] == ps[..i];
      if ps[i].key in STANDARD {
        standard := standard + [ps[i]];
      } else {
        custom := custom + [ps[i]];
      }
      i := i + 1;
    }
    assert ps[..|ps|] == ps;
  }

  method TxtValues(a: Agent, demoted: Params) returns (values: seq<string>)
    ensures values == Metadata(a) + Demoted(demoted)
  {
    values := Metadata(a);
    var i := 0;
    while i < |demoted|
      invariant 0 <= i <= |demoted| && values == Metadata(a) + Demoted(demoted[..i])
    {
      assert demoted[..i + 1][..i] == demoted[..i];
      values := values + [Demote(demoted[i])];
      i := i + 1;
    }
    assert demoted[..|demoted|] == demoted;
  }

  method PublishAgent(b: Backend, a: Agent, support: Support) returns (ok: bool)
    modifies b
    ensures (b.Now(), ok) == Publish(old(b.Now()), b.answer, a, support)
  {
    var standardParams, customParams := SplitByKey(a.params);
    var svcbParams: Option<Params> := Some(standardParams);
    var demotedParams := customParams;
    if support == Yes {
      svcbParams, demotedParams := Some(a.params), [];
    } else if support == Unknown && customParams != [] {
      var native := b.CreateSvcbRecord(a.domain, a.name, Svcb(1, a.target, a.params));
      if native {
        svcbParams, demotedParams := None, [];
      }
    }
    if svcbParams.Some? {
      ok := b.CreateSvcbRecord(a.domain, a.name, Svcb(1, a.target, svcbParams.value));
      if !ok {
        return;
      }
    }
    var values := TxtValues(a, demotedParams);
    ok := b.CreateTxtRecord(a.domain, a.name, values);
    if !ok {
      return;
    }
    if a.walkable {
      var alias := b.CreateSvcbRecord(a.domain, WalkableName(a.name), Svcb(0, Fqdn(a.name, a.domain) + ".", []));
    }
  }

  // ---- no parameter is lost ----

  /** The parameter a reader finds in a TXT value. */
  function RecoveredFrom(v: string): Params {
    if StartsWith(v, DEMOTED) then KeyAndValue(v[|DEMOTED|..]) else []
  }

  function Recovered(values: seq<string>): Params {
    if values == [] then [] else Recovered(values[..|values| - 1]) + RecoveredFrom(values[|values| - 1])
  }

  lemma FirstEquals(key: string, value: string)
    requires '=' !in key
    ensures Find(key + "=" + value, "=") == |key|
  {
    var w := key + "=" + value;
    assert w[|key|] == '=';
    assert Text.At(w, "=", |key|);
    forall j: nat | j < |key| ensures !Text.At(w, "=", j) {
      assert w[j] == key[j];
      assert w[j..j + 1][0] == w[j];
    }
  }

  lemma DemotedReadsBack(p: Item<string, string>)
    requires '=' !in p.key
    ensures RecoveredFrom(Demote(p)) == [p]
  {
    Regroup(DEMOTED, p.key, "=");
    Regroup(DEMOTED, p.key + "=", p.val);
    FirstEquals(p.key, p.val);
    AfterPrefix(p.key + "=" + p.val);
    CutKey(p.key, p.val);
  }

  /** The parameter written after the prefix. */
  function KeyAndValue(rest: string): Params {
    var at := Find(rest, "=");
    if at == |rest| then [] else [Item(rest[..at], rest[at + 1..])]
  }

  lemma AfterPrefix(rest: string)
    ensures RecoveredFrom(DEMOTED + rest) == KeyAndValue(rest)
  {
    assert (DEMOTED + rest)[|DEMOTED|..] == rest;
  }

  lemma CutKey(key: string, value: string)
    requires Find(key + "=" + value, "=") == |key|
    ensures KeyAndValue(key + "=" + value) == [Item(key, value)]
  {
    var rest := key + "=" + value;
    assert rest[..|key|] == key && rest[|key| + 1..] == value;
  }

  lemma RecoveredAppend(values: seq<string>, v: string)
    ensures Recovered(values + [v]) == Recovered(values) + RecoveredFrom(v)
  {
    assert (values + [v])[..|values|] == values;
  }

  lemma RecoveredOneMore(values: seq<string>, front: Params, last: Item<string, string>)
    requires '=' !in last.key && Recovered(values + Demoted(front)) == Recovered(values) + front
    ensures Recovered(values + (Demoted(front) + [Demote(last)])) == Recovered(values) + (front + [last])
  {
    RecoveredAppend(values + Demoted(front), Demote(last));
    DemotedReadsBack(last);
    Regroup(values, Demoted(front), [Demote(last)]);
    Regroup(Recovered(values), front, [last]);
  }

  lemma {:induction false} RecoveredDemoted(values: seq<string>, ps: Params)
    requires forall i :: 0 <= i < |ps| ==> '=' !in ps[i].key
    ensures Recovered(values + Demoted(ps)) == Recovered(values) + ps
  {
    if ps == [] {
      assert values + [] == values;
    } else {
      var front, last := ps[..|ps| - 1], ps[|ps| - 1];
      assert ps == front + [last];
      RecoveredDemoted(values, front);
      DemotedLast(front, last);
      RecoveredOneMore(values, front, last);
    }
  }

  lemma DemotedLast(front: Params, last: Item<string, string>)
    ensures Demoted(front + [last]) == Demoted(front) + [Demote(last)]
  {
    assert (front + [last])[..|front|] == front;
  }

  lemma {:induction false} NothingRecovered(values: seq<string>)
    requires forall i :: 0 <= i < |values| ==> !StartsWith(values[i], DEMOTED)
    ensures Recovered(values) == []
  {
    if values != [] {
      NothingRecovered(values[..|values| - 1]);
    }
  }

  lemma MetadataIsNotDemoted(a: Agent)
    ensures Recovered(Metadata(a)) == []
  {
    forall i | 0 <= i < |Metadata(a)| ensures !StartsWith(Metadata(a)[i], DEMOTED) {
      var v := Metadata(a)[i];
      assert |v| >= 2 && (v[0] != 'd' || v[1] != 'n');
    }
    NothingRecovered(Metadata(a));
  }

  lemma {:induction false} SplitByStandard(ps: Params)
    ensures multiset(Standard(ps)) + multiset(Custom(ps)) == multiset(ps)
    ensures forall p :: p in Standard(ps) <==> p in ps && p.key in STANDARD
    ensures forall p :: p in Custom(ps) <==> p in ps && p.key !in STANDARD
  {
    if ps != [] {
      SplitByStandard(ps[..|ps| - 1]);
      assert ps == ps[..|ps| - 1] + [ps[|ps| - 1]];
    }
  }

  /** The standard parameters are those of seven names; the others are custom. */
  lemma SplitParams(ps: Params)
    ensures multiset(Standard(ps)) + multiset(Custom(ps)) == multiset(ps)
    ensures forall p :: p in Standard(ps) <==>
              p in ps && p.key in {"mandatory", "alpn", "no-default-alpn", "port", "ipv4hint", "ipv6hint", "ech"}
    ensures forall p :: p in Custom(ps) <==>
              p in ps && p.key !in {"mandatory", "alpn", "no-default-alpn", "port", "ipv4hint", "ipv6hint", "ech"}
  {
    SplitByStandard(ps);
  }

  /** The owner of a published agent: its endpoint, its metadata, and every parameter once, in the SVCB
      record or as a TXT value. Parameters are demoted all together: then the standard ones stay behind. */
  ghost predicate Landed(o: Owner, a: Agent, demoted: bool) {
    && o.svcb.Some? && o.txt.Some?
    && o.svcb.value.priority == 1 && o.svcb.value.target == a.target
    && Metadata(a) <= o.txt.value
    && multiset(o.svcb.value.params) + multiset(Recovered(o.txt.value)) == multiset(a.params)
    && if demoted then
         && (forall p :: p in o.svcb.value.params ==> p.key in STANDARD)
         && (forall p :: p in Recovered(o.txt.value) ==> p.key !in STANDARD)
       else Recovered(o.txt.value) == []
  }

  /** Whether parameters go to TXT: where private keys are known or found not to be accepted. */
  predicate Demotes(answer: Responses, first: nat, a: Agent, support: Support) {
    match support
    case Yes => false
    case No => true
    case Unknown => Custom(a.params) == [] || Fails(answer(first))
  }

  lemma LandedWhole(a: Agent, o: Owner)
    requires o == Owner(Some(Svcb(1, a.target, a.params)), Some(Metadata(a) + Demoted([])))
    ensures Landed(o, a, false)
  {
    assert Metadata(a) + [] == Metadata(a);
    MetadataIsNotDemoted(a);
  }

  lemma LandedSplit(a: Agent, o: Owner)
    requires forall i :: 0 <= i < |a.params| ==> '=' !in a.params[i].key
    requires o == Owner(Some(Svcb(1, a.target, Standard(a.params))), Some(Metadata(a) + Demoted(Custom(a.params))))
    ensures Landed(o, a, true)
  {
    SplitByStandard(a.params);
    var custom := Custom(a.params);
    forall i | 0 <= i < |custom| ensures '=' !in custom[i].key {
      assert custom[i] in a.params;
    }
    MetadataIsNotDemoted(a);
    RecoveredDemoted(Metadata(a), custom);
    assert [] + custom == custom;
  }

  /** What writing the primary record leaves at any owner. */
  lemma PrimaryEffect(s: Store, answer: Responses, a: Agent, support: Support, z: string, n: string)
    ensures var (s1, primary) := WritePrimary(s, answer, a, support);
      && (primary.Some? ==>
            primary.value == if Demotes(answer, s.calls, a, support) then (Standard(a.params), Custom(a.params)) else (a.params, []))
      && (z != a.domain || n != a.name ==> Look(s1.records, z, n) == Look(s.records, z, n))
      && (primary.Some? && z == a.domain && n == a.name ==>
            Look(s1.records, z, n) == Look(s.records, z, n).(svcb := Some(Svcb(1, a.target, primary.value.0))))
  {
    var whole, part := Svcb(1, a.target, a.params), Svcb(1, a.target, Standard(a.params));
    CreateSvcbEffect(s, answer, a.domain, a.name, whole, z, n);
    CreateSvcbEffect(s, answer, a.domain, a.name, part, z, n);
    CreateSvcbEffect(CreateSvcb(s, answer, a.domain, a.name, whole).0, answer, a.domain, a.name, part, z, n);
  }

  function AliasOf(a: Agent): Svcb {
    Svcb(0, Fqdn(a.name, a.domain) + ".", [])
  }

  /** What publishing may leave at an owner other than the primary one. */
  predicate Beside(before: Owner, after: Owner, a: Agent, z: string, n: string) {
    || after == before
    || (a.walkable && z == a.domain && n == WalkableName(a.name) && after == before.(svcb := Some(AliasOf(a))))
  }

  lemma AliasEffect(s: Store, answer: Responses, a: Agent, z: string, n: string)
    ensures Beside(Look(s.records, z, n), Look(WriteAlias(s, answer, a).records, z, n), a, z, n)
  {
    CreateSvcbEffect(s, answer, a.domain, WalkableName(a.name), AliasOf(a), z, n);
  }

  lemma NamesDiffer(name: string, protocol: string)
    ensures name != WalkableName(name) && name != LegacyName(name, protocol) && WalkableName(name) != LegacyName(name, protocol)
  {
    assert |name| < |WalkableName(name)| < |LegacyName(name, protocol)|;
  }

  lemma CreateTxtEffect(s: Store, answer: Responses, zone: string, name: string, values: seq<string>, z: string, n: string)
    ensures var (s', ok) := CreateTxt(s, answer, zone, name, values);
      && (z != zone || n != name ==> Look(s'.records, z, n) == Look(s.records, z, n))
      && (ok ==> Look(s'.records, zone, name) == Look(s.records, zone, name).(txt := Some(values)))
  {
    Written(s.records, zone, name, Look(s.records, zone, name).(txt := Some(values)), z, n);
    Written(s.records, zone, name, Look(s.records, zone, name).(txt := Some(values)), zone, name);
  }

  /** No owner is touched but the agent's two. */
  lemma PublishBeside(s: Store, answer: Responses, a: Agent, support: Support, z: string, n: string)
    requires z != a.domain || n != a.name
    ensures Beside(Look(s.records, z, n), Look(Publish(s, answer, a, support).0.records, z, n), a, z, n)
  {
    var (s1, primary) := WritePrimary(s, answer, a, support);
    PrimaryEffect(s, answer, a, support, z, n);
    if primary.Some? {
      var values := Metadata(a) + Demoted(primary.value.1);
      CreateTxtEffect(s1, answer, a.domain, a.name, values, z, n);
      AliasEffect(CreateTxt(s1, answer, a.domain, a.name, values).0, answer, a, z, n);
    }
  }

  /** What a successful publish leaves at the primary owner. */
  lemma PublishedOwner(s: Store, answer: Responses, a: Agent, support: Support)
    requires Publish(s, answer, a, support).1
    ensures Look(Publish(s, answer, a, support).0.records, a.domain, a.name)
         == if Demotes(answer, s.calls, a, support)
            then Owner(Some(Svcb(1, a.target, Standard(a.params))), Some(Metadata(a) + Demoted(Custom(a.params))))
            else Owner(Some(Svcb(1, a.target, a.params)), Some(Metadata(a) + Demoted([])))
  {
    var (s1, primary) := WritePrimary(s, answer, a, support);
    var values := Metadata(a) + Demoted(primary.value.1);
    PrimaryEffect(s, answer, a, support, a.domain, a.name);
    CreateTxtEffect(s1, answer, a.domain, a.name, values, a.domain, a.name);
    AliasEffect(CreateTxt(s1, answer, a.domain, a.name, values).0, answer, a, a.domain, a.name);
    NamesDiffer(a.name, "");
  }

  /** A successful publish puts every parameter in place exactly once, whatever the backend supports and
      whether or not it accepts the first attempt; no publish touches an owner but the agent's two. */
  lemma PublishLands(s: Store, answer: Responses, a: Agent, support: Support, z: string, n: string)
    requires forall i :: 0 <= i < |a.params| ==> '=' !in a.params[i].key
    ensures var (s', ok) := Publish(s, answer, a, support);
      && (ok ==> Landed(Look(s'.records, a.domain, a.name), a, Demotes(answer, s.calls, a, support)))
      && (z != a.domain || n != a.name ==> Beside(Look(s.records, z, n), Look(s'.records, z, n), a, z, n))
  {
    var (s', ok) := Publish(s, answer, a, support);
    if ok {
      PublishedOwner(s, answer, a, support);
      if Demotes(answer, s.calls, a, support) {
        LandedSplit(a, Look(s'.records, a.domain, a.name));
      } else {
        LandedWhole(a, Look(s'.records, a.domain, a.name));
      }
    }
    if z != a.domain || n != a.name {
      PublishBeside(s, answer, a, support, z, n);
    }
  }

  /** The texts beside the endpoint: capabilities and use cases joined by commas, and what else is given. */
  lemma MetadataExactly(a: Agent, v: string)
    ensures v in Metadata(a)
       <==> || (a.capabilities != [] && v == "capabilities=" + Join(a.capabilities, ","))
            || v == "version=" + a.version
            || (a.description != [] && v == "description=" + a.description)
            || (a.useCases != [] && v == "use_cases=" + Join(a.useCases, ","))
            || (a.category != [] && v == "category=" + a.category)
    ensures |Metadata(a)| == 1 + (if a.capabilities != [] then 1 else 0) + (if a.description != [] then 1 else 0)
                           + (if a.useCases != [] then 1 else 0) + (if a.category != [] then 1 else 0)
  {}

  /** Where an alias is wanted and its request, the last one, is carried out, it points at the primary owner;
      without one there are only the two writes. */
  lemma AliasWritten(s: Store, answer: Responses, a: Agent, support: Support)
    requires Publish(s, answer, a, support).1
    ensures var s' := Publish(s, answer, a, support).0;
      && s'.calls > 0
      && (a.walkable && Takes(answer(s'.calls - 1)) ==>
            Look(s'.records, a.domain, a.name + "._agents").svcb == Some(Svcb(0, a.name + "." + a.domain + ".", [])))
      && (!a.walkable ==>
            Look(s'.records, a.domain, a.name + "._agents") == Look(s.records, a.domain, a.name + "._agents"))
  {
    var (s1, primary) := WritePrimary(s, answer, a, support);
    var s2 := CreateTxt(s1, answer, a.domain, a.name, Metadata(a) + Demoted(primary.value.1)).0;
    assert s2.calls == s1.calls + 1;
    if a.walkable {
      CreateSvcbEffect(s2, answer, a.domain, WalkableName(a.name), AliasOf(a), a.domain, WalkableName(a.name));
    } else {
      NamesDiffer(a.name, "");
      PublishBeside(s, answer, a, support, a.domain, WalkableName(a.name));
    }
  }

  // ---- unpublishing ----

  /** What became of the primary records: whether either was there before, and which were deleted. */
  datatype Primary = Primary(existed: bool, svcbDeleted: bool, txtDeleted: bool)

  /** Probe the two primary records, then delete them; None is an exception. */
  function ClearPrimary(s: Store, answer: Responses, domain: string, name: string): (Store, Option<Primary>) {
    var (s1, svcbExisted) := Probe(s, answer, domain, name, SVCB);
    if svcbExisted.None? then (s1, None)
    else
      var (s2, txtExisted) := Probe(s1, answer, domain, name, TXT);
      if txtExisted.None? then (s2, None)
      else
        var (s3, svcb) := Delete(s2, answer, domain, name, SVCB);
        if svcb.None? then (s3, None)
        else
          var (s4, txt) := Delete(s3, answer, domain, name, TXT);
          if txt.None? then (s4, None)
          else (s4, Some(Primary(svcbExisted.value || txtExisted.value, svcb.value, txt.value)))
  }

  /** Clear the primary records, clean up the rest, and report. */
  function Unpublish(s: Store, answer: Responses, domain: string, name: string, protocol: string): (Store, Option<bool>) {
    var (s1, primary) := ClearPrimary(s, answer, domain, name);
    if primary.None? then (s1, None)
    else
      var (s2, cleanup) := CleanUp(s1, answer, domain, name, protocol);
      var deleted := primary.value.svcbDeleted || primary.value.txtDeleted;
      if primary.value.existed && !deleted then (s2, Some(false)) else (s2, Some(deleted || cleanup))
  }

  /** The alias and the older records go too if they can. */
  function CleanUp(s: Store, answer: Responses, domain: string, name: string, protocol: string): (Store, bool) {
    var (s1, walkable) := Delete(s, answer, domain, WalkableName(name), SVCB);
    var (s2, legacySvcb) := Delete(s1, answer, domain, LegacyName(name, protocol), SVCB);
    if legacySvcb.None? then (s2, walkable == Some(true))
    else
      var (s3, legacyTxt) := Delete(s2, answer, domain, LegacyName(name, protocol), TXT);
      (s3, walkable == Some(true) || legacySvcb == Some(true) || legacyTxt == Some(true))
  }

  method UnpublishAgent(b: Backend, name: string, domain: string, protocol: string) returns (r: Option<bool>)
    modifies b
    ensures !b.ZoneExists(domain) ==> r == Some(false) && b.Now() == old(b.Now())
    ensures b.ZoneExists(domain) ==> (b.Now(), r) == Unpublish(old(b.Now()), b.answer, domain, name, protocol)
  {
    if !b.ZoneExists(domain) {
      return Some(false);
    }
    var svcbExisted := b.GetRecord(domain, name, SVCB);
    if svcbExisted.None? {
      return None;
    }
    var txtExisted := b.GetRecord(domain, name, TXT);
    if txtExisted.None? {
      return None;
    }
    var svcbDeleted := b.DeleteRecord(domain, name, SVCB);
    if svcbDeleted.None? {
      return None;
    }
    var txtDeleted := b.DeleteRecord(domain, name, TXT);
    if txtDeleted.None? {
      return None;
    }
    ghost var primaryDone := b.Now();
    var walkable := b.DeleteRecord(domain, WalkableName(name), SVCB);
    var cleanup := walkable == Some(true);
    var legacySvcb := b.DeleteRecord(domain, LegacyName(name, protocol), SVCB);
    if legacySvcb.Some? {
      var legacyTxt := b.DeleteRecord(domain, LegacyName(name, protocol), TXT);
      cleanup := cleanup || legacySvcb.value || legacyTxt == Some(true);
    }
    assert (b.Now(), cleanup) == CleanUp(primaryDone, b.answer, domain, name, protocol);
    var primaryDeleted := svcbDeleted.value || txtDeleted.value;
    if (svcbExisted.value || txtExisted.value) && !primaryDeleted {
      return Some(false);
    }
    r := Some(primaryDeleted || cleanup);
  }

  /** One of the five records an agent may have. */
  predicate Own(domain: string, name: string, protocol: string, z: string, n: string, t: Type) {
    && z == domain
    && (n == name || n == LegacyName(name, protocol) || (n == WalkableName(name) && t == SVCB))
  }

  predicate Present(s: Store, z: string, n: string, t: Type) {
    Has(Look(s.records, z, n), t)
  }

  ghost predicate AnyOwn(s: Store, domain: string, name: string, protocol: string) {
    exists n, t :: Own(domain, name, protocol, domain, n, t) && Present(s, domain, n, t)
  }

  /** From request `first` on, everything is done as asked. */
  ghost predicate Calm(answer: Responses, first: nat) {
    forall i: nat :: first <= i ==> answer(i).Obeys?
  }

  /** The contents of one record slot, whichever type it is. */
  predicate Same(a: Owner, b: Owner, t: Type) {
    match t
    case SVCB => a.svcb == b.svcb
    case TXT => a.txt == b.txt
  }

  /** Whether a record that a step took away is one it may take, and left as it was otherwise. */
  ghost predicate Kept(s: Store, s': Store, z: string, n: string, t: Type) {
    Present(s', z, n, t) ==> Same(Look(s.records, z, n), Look(s'.records, z, n), t)
  }

  lemma CleanUpKeeps(s: Store, answer: Responses, domain: string, name: string, protocol: string, z: string, n: string, t: Type)
    ensures var s' := CleanUp(s, answer, domain, name, protocol).0;
      && Kept(s, s', z, n, t)
      && (Present(s, z, n, t) && !Present(s', z, n, t) ==> Own(domain, name, protocol, z, n, t) && n != name)
  {
    NamesDiffer(name, protocol);
    var walk, legacy := WalkableName(name), LegacyName(name, protocol);
    var s1 := Delete(s, answer, domain, walk, SVCB).0;
    var s2 := Delete(s1, answer, domain, legacy, SVCB).0;
    DeleteEffect(s, answer, domain, walk, SVCB, z, n);
    DeleteEffect(s1, answer, domain, legacy, SVCB, z, n);
    DeleteEffect(s2, answer, domain, legacy, TXT, z, n);
  }

  lemma CleanUpClears(s: Store, answer: Responses, domain: string, name: string, protocol: string)
    requires Calm(answer, s.calls)
    ensures var (s', cleanup) := CleanUp(s, answer, domain, name, protocol);
      var walk, legacy := WalkableName(name), LegacyName(name, protocol);
      && !Present(s', domain, walk, SVCB) && !Present(s', domain, legacy, SVCB) && !Present(s', domain, legacy, TXT)
      && cleanup == (Present(s, domain, walk, SVCB) || Present(s, domain, legacy, SVCB) || Present(s, domain, legacy, TXT))
  {
    NamesDiffer(name, protocol);
    var walk, legacy := WalkableName(name), LegacyName(name, protocol);
    var s1 := Delete(s, answer, domain, walk, SVCB).0;
    var s2 := Delete(s1, answer, domain, legacy, SVCB).0;
    DeleteEffect(s, answer, domain, walk, SVCB, domain, walk);
    DeleteEffect(s, answer, domain, walk, SVCB, domain, legacy);
    DeleteEffect(s1, answer, domain, legacy, SVCB, domain, walk);
    DeleteEffect(s1, answer, domain, legacy, SVCB, domain, legacy);
    DeleteEffect(s2, answer, domain, legacy, TXT, domain, walk);
    DeleteEffect(s2, answer, domain, legacy, TXT, domain, legacy);
  }

  /** The two deletions at the primary owner. */
  lemma PrimaryDeletes(s: Store, answer: Responses, domain: string, name: string)
    ensures var (s1, svcb) := Delete(s, answer, domain, name, SVCB);
      var (s2, txt) := Delete(s1, answer, domain, name, TXT);
      && s2.calls == s.calls + 2
      && (svcb == None <==> Fails(answer(s.calls))) && (txt == None <==> Fails(answer(s.calls + 1)))
      && (svcb == Some(true) <==> answer(s.calls).Obeys? && Present(s, domain, name, SVCB))
      && (txt == Some(true) <==> answer(s.calls + 1).Obeys? && Present(s, domain, name, TXT))
      && (Present(s2, domain, name, SVCB) <==> Present(s, domain, name, SVCB) && svcb != Some(true) && !answer(s.calls).Loses?)
      && (Present(s2, domain, name, TXT) <==> Present(s, domain, name, TXT) && txt != Some(true) && !answer(s.calls + 1).Loses?)
  {
    var s1 := Delete(s, answer, domain, name, SVCB).0;
    DeleteEffect(s, answer, domain, name, SVCB, domain, name);
    DeleteEffect(s1, answer, domain, name, TXT, domain, name);
  }

  /** A record went from one owner, or was kept. */
  ghost predicate OnlyAt(s: Store, s': Store, domain: string, name: string, z: string, n: string, t: Type) {
    Kept(s, s', z, n, t) && (Present(s, z, n, t) && !Present(s', z, n, t) ==> z == domain && n == name)
  }

  lemma DeleteOnlyAt(s: Store, answer: Responses, domain: string, name: string, dt: Type, z: string, n: string, t: Type)
    ensures OnlyAt(s, Delete(s, answer, domain, name, dt).0, domain, name, z, n, t)
  {
    DeleteEffect(s, answer, domain, name, dt, z, n);
  }

  /** Nothing but the two primary records changes. */
  lemma ClearPrimaryKeeps(s: Store, answer: Responses, domain: string, name: string, z: string, n: string, t: Type)
    ensures OnlyAt(s, ClearPrimary(s, answer, domain, name).0, domain, name, z, n, t)
  {
    var s1 := Probe(s, answer, domain, name, SVCB).0;
    var s2 := Probe(s1, answer, domain, name, TXT).0;
    var s3 := Delete(s2, answer, domain, name, SVCB).0;
    var s4 := Delete(s3, answer, domain, name, TXT).0;
    assert OnlyAt(s, s1, domain, name, z, n, t) && OnlyAt(s, s2, domain, name, z, n, t);
    DeleteOnlyAt(s2, answer, domain, name, SVCB, z, n, t);
    DeleteOnlyAt(s3, answer, domain, name, TXT, z, n, t);
    OnlyAtTwice(s, s2, s3, domain, name, z, n, t);
    OnlyAtTwice(s, s3, s4, domain, name, z, n, t);
    var s' := ClearPrimary(s, answer, domain, name).0;
    assert s' == s1 || s' == s2 || s' == s3 || s' == s4;
  }

  lemma OnlyAtTwice(s: Store, s1: Store, s2: Store, domain: string, name: string, z: string, n: string, t: Type)
    requires OnlyAt(s, s1, domain, name, z, n, t) && OnlyAt(s1, s2, domain, name, z, n, t)
    ensures OnlyAt(s, s2, domain, name, z, n, t)
  {}

  /** One of the four requests about the primary records raises. */
  predicate AnyRaises(answer: Responses, c: nat) {
    Fails(answer(c)) || Fails(answer(c + 1)) || Fails(answer(c + 2)) || Fails(answer(c + 3))
  }

  /** What an answer tells about the two records. */
  lemma ClearPrimaryTells(s: Store, answer: Responses, domain: string, name: string)
    ensures var (s', p) := ClearPrimary(s, answer, domain, name);
      var svcb, txt := Present(s, domain, name, SVCB), Present(s, domain, name, TXT);
      && (p == None <==> AnyRaises(answer, s.calls))
      && (p.Some? ==>
            && s'.calls == s.calls + 4
            && p.value == Primary(svcb || txt, answer(s.calls + 2).Obeys? && svcb, answer(s.calls + 3).Obeys? && txt)
            && (Present(s', domain, name, SVCB) <==> svcb && answer(s.calls + 2).Masks?)
            && (Present(s', domain, name, TXT) <==> txt && answer(s.calls + 3).Masks?))
  {
    PrimaryDeletes(s.(calls := s.calls + 2), answer, domain, name);
  }

  /** Unpublishing removes nothing but the agent's own five records and alters no other, however the
      backend behaves. */
  lemma UnpublishKeeps(s: Store, answer: Responses, domain: string, name: string, protocol: string, z: string, n: string, t: Type)
    ensures var s' := Unpublish(s, answer, domain, name, protocol).0;
      && Kept(s, s', z, n, t)
      && (Present(s, z, n, t) && !Present(s', z, n, t) ==> Own(domain, name, protocol, z, n, t))
  {
    ClearPrimaryKeeps(s, answer, domain, name, z, n, t);
    CleanUpKeeps(ClearPrimary(s, answer, domain, name).0, answer, domain, name, protocol, z, n, t);
  }

  /** On a backend that does as asked, unpublishing leaves none of the five records and reports whether
      there was one. */
  lemma UnpublishClears(s: Store, answer: Responses, domain: string, name: string, protocol: string)
    requires Calm(answer, s.calls)
    ensures var (s', r) := Unpublish(s, answer, domain, name, protocol);
      !AnyOwn(s', domain, name, protocol) && r == Some(AnyOwn(s, domain, name, protocol))
  {
    NamesDiffer(name, protocol);
    var walk, legacy := WalkableName(name), LegacyName(name, protocol);
    var s1 := ClearPrimary(s, answer, domain, name).0;
    var s2 := CleanUp(s1, answer, domain, name, protocol).0;
    ClearPrimaryTells(s, answer, domain, name);
    CleanUpClears(s1, answer, domain, name, protocol);
    ClearPrimaryKeeps(s, answer, domain, name, domain, walk, SVCB);
    ClearPrimaryKeeps(s, answer, domain, name, domain, legacy, SVCB);
    ClearPrimaryKeeps(s, answer, domain, name, domain, legacy, TXT);
    CleanUpKeeps(s1, answer, domain, name, protocol, domain, name, SVCB);
    CleanUpKeeps(s1, answer, domain, name, protocol, domain, name, TXT);
    AnyOwnMeans(s, domain, name, protocol);
    AnyOwnMeans(s2, domain, name, protocol);
  }

  lemma AnyOwnMeans(s: Store, domain: string, name: string, protocol: string)
    ensures AnyOwn(s, domain, name, protocol)
      <==> (|| Present(s, domain, name, SVCB) || Present(s, domain, name, TXT)
            || Present(s, domain, WalkableName(name), SVCB)
            || Present(s, domain, LegacyName(name, protocol), SVCB) || Present(s, domain, LegacyName(name, protocol), TXT))
  {}

  /** One of the primary records is still there. */
  predicate Alive(s: Store, domain: string, name: string) {
    Present(s, domain, name, SVCB) || Present(s, domain, name, TXT)
  }

  /** The answers to the two primary deletions, which come third and fourth. */
  predicate OneMasked(answer: Responses, first: nat) {
    answer(first + 2).Masks? != answer(first + 3).Masks?
  }

  /** Success is reported for an agent whose primary owner still has a record exactly when it had both,
      none of the four primary requests raises and one of the two deletions is masked: the check for
      masked failures looks at the pair. */
  lemma SuccessWithSurvivor(s: Store, answer: Responses, domain: string, name: string, protocol: string)
    ensures var (s', r) := Unpublish(s, answer, domain, name, protocol);
      (r == Some(true) && Alive(s', domain, name))
        == (&& Present(s, domain, name, SVCB) && Present(s, domain, name, TXT)
            && !AnyRaises(answer, s.calls) && OneMasked(answer, s.calls))
  {
    var (s1, p) := ClearPrimary(s, answer, domain, name);
    SurvivorOfTwo(s, answer, domain, name);
    AliveThroughCleanUp(s1, answer, domain, name, protocol);
    if Unpublish(s, answer, domain, name, protocol).1 == Some(true) {
      SuccessMeans(s, answer, domain, name, protocol);
    }
    ClearPrimaryTells(s, answer, domain, name);
    if p.Some? && (p.value.svcbDeleted || p.value.txtDeleted) {
      DeletedIsSuccess(s, answer, domain, name, protocol);
    }
  }

  lemma DeletedIsSuccess(s: Store, answer: Responses, domain: string, name: string, protocol: string)
    requires var p := ClearPrimary(s, answer, domain, name).1; p.Some? && (p.value.svcbDeleted || p.value.txtDeleted)
    ensures Unpublish(s, answer, domain, name, protocol).1 == Some(true)
    ensures Unpublish(s, answer, domain, name, protocol).0
         == CleanUp(ClearPrimary(s, answer, domain, name).0, answer, domain, name, protocol).0
  {}

  lemma SuccessMeans(s: Store, answer: Responses, domain: string, name: string, protocol: string)
    requires Unpublish(s, answer, domain, name, protocol).1 == Some(true)
    ensures var (s1, p) := ClearPrimary(s, answer, domain, name);
      && p.Some? && (p.value.existed ==> p.value.svcbDeleted || p.value.txtDeleted)
      && Unpublish(s, answer, domain, name, protocol).0 == CleanUp(s1, answer, domain, name, protocol).0
  {}

  lemma SurvivorOfTwo(s: Store, answer: Responses, domain: string, name: string)
    ensures var (s1, p) := ClearPrimary(s, answer, domain, name);
      p.Some? && (p.value.existed ==> p.value.svcbDeleted || p.value.txtDeleted) ==>
        (Alive(s1, domain, name)
         <==> Present(s, domain, name, SVCB) && Present(s, domain, name, TXT) && OneMasked(answer, s.calls))
  {
    ClearPrimaryTells(s, answer, domain, name);
  }

  lemma AliveThroughCleanUp(s: Store, answer: Responses, domain: string, name: string, protocol: string)
    ensures Alive(CleanUp(s, answer, domain, name, protocol).0, domain, name) == Alive(s, domain, name)
  {
    CleanUpKeeps(s, answer, domain, name, protocol, domain, name, SVCB);
    CleanUpKeeps(s, answer, domain, name, protocol, domain, name, TXT);
  }

  /** When every existing primary record outlives the call, success is never reported. */
  lemma MaskedPairIsReported(s: Store, answer: Responses, domain: string, name: string, protocol: string)
    requires Alive(s, domain, name)
    requires forall t :: Present(s, domain, name, t) ==> Present(Unpublish(s, answer, domain, name, protocol).0, domain, name, t)
    ensures Unpublish(s, answer, domain, name, protocol).1 != Some(true)
  {
    ClearPrimaryTells(s, answer, domain, name);
    var s1 := ClearPrimary(s, answer, domain, name).0;
    CleanUpKeeps(s1, answer, domain, name, protocol, domain, name, SVCB);
    CleanUpKeeps(s1, answer, domain, name, protocol, domain, name, TXT);
  }

  function MaskThird(): Responses {
    i => if i == 2 then Masks else Obeys
  }

  /** The SVCB deletion masked, the TXT one done: success, with the SVCB record still served. */
  lemma SurvivorExample(record: Svcb) returns (s: Store)
    ensures var (s', r) := Unpublish(s, MaskThird(), "example.com", "chat", "mcp");
      r == Some(true) && Look(s'.records, "example.com", "chat").svcb == Some(record)
  {
    var o := Owner(Some(record), Some(["version=1"]));
    s := Store(Write(map[], "example.com", "chat", o), 0);
    Written(map[], "example.com", "chat", o, "example.com", "chat");
    ClearPrimaryTells(s, MaskThird(), "example.com", "chat");
    ClearPrimaryKeeps(s, MaskThird(), "example.com", "chat", "example.com", "chat", SVCB);
    CleanUpKeeps(ClearPrimary(s, MaskThird(), "example.com", "chat").0, MaskThird(), "example.com", "chat", "mcp", "example.com", "chat", SVCB);
  }

  /** Publishing and then unpublishing, with the backend doing as asked from then on, leaves none of the
      agent's five records, reports True, and leaves every other record as it was before both. */
  lemma PublishThenUnpublish(s: Store, answer: Responses, a: Agent, support: Support, protocol: string, z: string, n: string, t: Type)
    requires forall i :: 0 <= i < |a.params| ==> '=' !in a.params[i].key
    requires Publish(s, answer, a, support).1 && Calm(answer, Publish(s, answer, a, support).0.calls)
    ensures var (s', r) := Unpublish(Publish(s, answer, a, support).0, answer, a.domain, a.name, protocol);
      && !AnyOwn(s', a.domain, a.name, protocol) && r == Some(true)
      && (!Own(a.domain, a.name, protocol, z, n, t) ==> Same(Look(s.records, z, n), Look(s'.records, z, n), t))
  {
    var s1 := Publish(s, answer, a, support).0;
    PublishLands(s, answer, a, support, z, n);
    UnpublishClears(s1, answer, a.domain, a.name, protocol);
    UnpublishKeeps(s1, answer, a.domain, a.name, protocol, z, n, t);
    assert Own(a.domain, a.name, protocol, a.domain, a.name, SVCB) && Present(s1, a.domain, a.name, SVCB);
  }
}
