/** The SVCB parameters an agent record is published with. */
module AgentParams {
  import opened Wrappers
  import opened Text
  import opened OrderedDict
  import opened ZoneStore
  import Publishing

  datatype Protocol = A2A | MCP | HTTPS

  function ProtocolValue(p: Protocol): string {
    match p
    case A2A => "a2a"
    case MCP => "mcp"
    case HTTPS => "https"
  }

  // ---- the shape of a bap value ----

  predicate IsSmall(c: char) {
    'a' <= c <= 'z'
  }

  predicate IsDigit(c: char) {
    '0' <= c <= '9'
  }

  predicate IsAlnum(c: char) {
    IsSmall(c) || 'A' <= c <= 'Z' || IsDigit(c)
  }

  /** `[a-z][a-z0-9]*` */
  predicate IsToken(s: string) {
    s != [] && IsSmall(s[0]) && forall i :: 0 <= i < |s| ==> IsSmall(s[i]) || IsDigit(s[i])
  }

  /** `[A-Za-z0-9][A-Za-z0-9._-]{0,63}` */
  predicate IsVersion(s: string) {
    && 1 <= |s| <= 64 && IsAlnum(s[0])
    && forall i :: 0 <= i < |s| ==> IsAlnum(s[i]) || s[i] == '.' || s[i] == '_' || s[i] == '-'
  }

  /** The protocol a bap value is for: what stands before its version. */
  function BapProtocol(s: string): string {
    var b := Chomp(s);
    b[..Find(b, "=")]
  }

  /** A protocol, possibly with a version; the pattern's end also matches before one final line break. */
  predicate IsBap(s: string) {
    var b := Chomp(s);
    var at := Find(b, "=");
    |s| <= 128 && IsToken(b[..at]) && (at < |b| ==> IsVersion(b[at + 1..]))
  }

  type Bap = s: string | IsBap(s) witness BapWitness()

  function BapWitness(): (s: string)
    ensures IsBap(s)
  {
    BareBap("mcp");
    "mcp"
  }

  lemma BareBap(s: string)
    requires IsToken(s) && |s| <= 128
    ensures IsBap(s) && BapProtocol(s) == s
  {
    assert Chomp(s) == s;
    if Find(s, "=") < |s| {
      assert Text.At(s, "=", Find(s, "="));
      assert s[Find(s, "=")] == s[Find(s, "=")..Find(s, "=") + 1][0];
    }
  }

  // ---- agent records ----

  /** `[a-z0-9]([a-z0-9-]*[a-z0-9])?` */
  predicate IsLabel(s: string) {
    && 1 <= |s| <= 63
    && (forall i :: 0 <= i < |s| ==> IsSmall(s[i]) || IsDigit(s[i]) || s[i] == '-')
    && s[0] != '-' && s[|s| - 1] != '-'
  }

  type Label = s: string | IsLabel(s) witness "a"

  datatype Record = Record(
    name: Label, domain: string, protocol: Protocol, targetHost: string, port: nat,
    ipv4Hint: Option<string>, ipv6Hint: Option<string>, capUri: Option<string>, capSha256: Option<string>,
    bap: Option<Bap>, policyUri: Option<string>, realm: Option<string>, sig: Option<string>,
    connectClass: Option<string>, connectMeta: Option<string>, enrollUri: Option<string>,
    wellKnownPath: Option<string>,
    capabilities: seq<string>, version: string, description: string, useCases: seq<string>, category: string,
    walkable: bool)

  function Decimal(n: nat): string {
    (if n < 10 then [] else Decimal(n / 10)) + [('0' as int + n % 10) as char]
  }

  // ---- serialising ----

  /** The names of the private parameters; the n-th is key 65400 + n. */
  const PRIVATE: seq<string> := ["cap", "cap-sha256", "bap", "policy", "realm", "sig", "connect-class", "connect-meta",
                                 "enroll-uri", "well-known"]

  /** The name a private parameter is written under. */
  function Key(stringKeys: bool, n: nat): string
    requires n < 10
  {
    if stringKeys then PRIVATE[n] else "key6540" + [('0' as int + n) as char]
  }

  type Slots = seq<Item<string, Option<string>>>

  function PublicSlots(r: Record): (slots: Slots)
    ensures |slots| == 5 && slots[0] == Item("alpn", Some(ProtocolValue(r.protocol)))
  {
    [Item("alpn", Some(ProtocolValue(r.protocol))), Item("port", Some(Decimal(r.port))),
     Item("mandatory", Some("alpn,port")), Item("ipv4hint", r.ipv4Hint), Item("ipv6hint", r.ipv6Hint)]
  }

  function PrivateValues(r: Record): (vs: seq<Option<string>>)
    ensures |vs| == 10 && vs[2] == r.bap
  {
    [r.capUri, r.capSha256, r.bap, r.policyUri, r.realm, r.sig, r.connectClass, r.connectMeta, r.enrollUri,
     r.wellKnownPath]
  }

  function PrivateSlots(r: Record, stringKeys: bool): Slots {
    seq(10, n requires 0 <= n < 10 => Item(Key(stringKeys, n), PrivateValues(r)[n]))
  }

  /** A value worth writing. */
  function Given(v: Option<string>): Option<string> {
    if v == Some("") then None else v
  }

  /** The values given, written to the dictionary one after the other. */
  function Filled(slots: Slots): Publishing.Params {
    if slots == [] then []
    else
      var last := slots[|slots| - 1];
      match Given(last.val)
      case Some(v) => Put(Filled(slots[..|slots| - 1]), last.key, v)
      case None => Filled(slots[..|slots| - 1])
  }

  function ToParams(r: Record, stringKeys: bool): Publishing.Params {
    Filled(PublicSlots(r) + PrivateSlots(r, stringKeys))
  }

  function ToAgent(r: Record, stringKeys: bool): Publishing.Agent {
    Publishing.Agent(r.name, r.domain, r.targetHost + ".", ToParams(r, stringKeys),
                     r.capabilities, r.version, r.description, r.useCases, r.category, r.walkable)
  }

  // ---- every field is written once, under its own name ----

  lemma KeysDiffer(stringKeys: bool, m: nat, n: nat)
    requires m < n < 10
    ensures Key(stringKeys, m) != Key(stringKeys, n)
  {
    if stringKeys {
      assert |PRIVATE[m]| != |PRIVATE[n]| || PRIVATE[m][0] != PRIVATE[n][0];
    } else {
      assert Key(false, m)[7] != Key(false, n)[7];
    }
  }

  const PUBLIC: seq<string> := ["alpn", "port", "mandatory", "ipv4hint", "ipv6hint"]

  lemma PublicKeysDiffer(stringKeys: bool, m: nat, n: nat)
    requires m < 5 && n < 10
    ensures PUBLIC[m] != Key(stringKeys, n) && (m < n < 5 ==> PUBLIC[m] != PUBLIC[n])
  {
    assert PUBLIC[3][3] != PUBLIC[4][3];
    if stringKeys {
      assert |PUBLIC[m]| != |PRIVATE[n]|;
    } else {
      assert PUBLIC[m][0] != 'k';
    }
  }

  lemma SlotsUnique(r: Record, stringKeys: bool)
    ensures Unique(PublicSlots(r) + PrivateSlots(r, stringKeys))
  {
    var slots := PublicSlots(r) + PrivateSlots(r, stringKeys);
    forall i, j | 0 <= i < j < |slots| ensures slots[i].key != slots[j].key {
      if j < 5 {
        PublicKeysDiffer(stringKeys, i, j);
      } else if i < 5 {
        PublicKeysDiffer(stringKeys, i, j - 5);
      } else {
        KeysDiffer(stringKeys, i - 5, j - 5);
      }
    }
  }

  lemma {:induction false} FilledKeys(slots: Slots)
    ensures Unique(Filled(slots)) && Keys(Filled(slots)) <= Keys(slots)
  {
    if slots != [] {
      var front, last := slots[..|slots| - 1], slots[|slots| - 1];
      FilledKeys(front);
      assert Keys(front) <= Keys(slots) && last.key in Keys(slots);
      if Given(last.val).Some? {
        PutKeys(Filled(front), last.key, Given(last.val).value);
      }
    }
  }

  lemma PutKeys(d: Publishing.Params, k: string, v: string)
    requires Unique(d)
    ensures Unique(Put(d, k, v)) && Keys(Put(d, k, v)) <= Keys(d) + {k}
  {}

  lemma {:induction false} FilledGet(slots: Slots, i: nat)
    requires Unique(slots) && i < |slots|
    ensures Get(Filled(slots), slots[i].key) == Given(slots[i].val)
  {
    var front, last := slots[..|slots| - 1], slots[|slots| - 1];
    if i < |front| {
      FilledGet(front, i);
      if Given(last.val).Some? {
        PutOther(Filled(front), last.key, Given(last.val).value, slots[i].key);
      }
    } else if Given(last.val).Some? {
      PutGet(Filled(front), last.key, Given(last.val).value);
    } else {
      FilledKeys(front);
      Absent(Filled(front), last.key);
    }
  }

  lemma Absent(d: Publishing.Params, k: string)
    requires k !in Keys(d)
    ensures Get(d, k) == None
  {}

  /** Every field that is given is found under its own parameter, and an empty or missing one is not there. */
  lemma FieldsAreWritten(r: Record, stringKeys: bool, n: nat)
    ensures n < 5 ==> Get(ToParams(r, stringKeys), PUBLIC[n]) == Given(PublicSlots(r)[n].val)
    ensures n < 10 ==> Get(ToParams(r, stringKeys), Key(stringKeys, n)) == Given(PrivateValues(r)[n])
  {
    SlotsUnique(r, stringKeys);
    var slots := PublicSlots(r) + PrivateSlots(r, stringKeys);
    if n < 5 {
      FilledGet(slots, n);
    }
    if n < 10 {
      FilledGet(slots, n + 5);
    }
  }

  lemma AlpnIsWritten(r: Record, stringKeys: bool)
    ensures Get(ToParams(r, stringKeys), "alpn") == Some(ProtocolValue(r.protocol))
  {
    var slots := PublicSlots(r) + PrivateSlots(r, stringKeys);
    SlotsUnique(r, stringKeys);
    FilledGet(slots, 0);
    assert slots[0] == PublicSlots(r)[0];
    ProtocolGiven(r.protocol);
  }

  lemma ProtocolGiven(p: Protocol)
    ensures Given(Some(ProtocolValue(p))) == Some(ProtocolValue(p))
  {
    assert |ProtocolValue(p)| > 0;
  }

  /** A field that is missing or empty counts as not given, and any other as it is. */
  lemma GivenExactly(v: Option<string>, s: string)
    ensures Given(v) == Some(s) <==> v == Some(s) && s != []
  {}

  /** What else of a record is published: the target as an absolute name, and the metadata unchanged. */
  lemma CarriedOver(r: Record, stringKeys: bool)
    ensures var a := ToAgent(r, stringKeys);
      && a.name == r.name && a.domain == r.domain && a.target == r.targetHost + "." && a.walkable == r.walkable
      && a.capabilities == r.capabilities && a.version == r.version && a.description == r.description
      && a.useCases == r.useCases && a.category == r.category
  {}

  /** The ten private fields by name, in either key style. */
  lemma PrivateFields(r: Record, stringKeys: bool)
    ensures var ps := ToParams(r, stringKeys);
      && Get(ps, if stringKeys then "cap" else "key65400") == Given(r.capUri)
      && Get(ps, if stringKeys then "cap-sha256" else "key65401") == Given(r.capSha256)
      && Get(ps, if stringKeys then "bap" else "key65402") == Given(r.bap)
      && Get(ps, if stringKeys then "policy" else "key65403") == Given(r.policyUri)
      && Get(ps, if stringKeys then "realm" else "key65404") == Given(r.realm)
      && Get(ps, if stringKeys then "sig" else "key65405") == Given(r.sig)
      && Get(ps, if stringKeys then "connect-class" else "key65406") == Given(r.connectClass)
      && Get(ps, if stringKeys then "connect-meta" else "key65407") == Given(r.connectMeta)
      && Get(ps, if stringKeys then "enroll-uri" else "key65408") == Given(r.enrollUri)
      && Get(ps, if stringKeys then "well-known" else "key65409") == Given(r.wellKnownPath)
  {
    forall n | 0 <= n < 10 ensures Get(ToParams(r, stringKeys), Key(stringKeys, n)) == Given(PrivateValues(r)[n]) {
      FieldsAreWritten(r, stringKeys, n);
    }
    PrivateKeys(stringKeys);
  }

  lemma PrivateKeys(stringKeys: bool)
    ensures Key(stringKeys, 0) == (if stringKeys then "cap" else "key65400")
    ensures Key(stringKeys, 1) == (if stringKeys then "cap-sha256" else "key65401")
    ensures Key(stringKeys, 2) == (if stringKeys then "bap" else "key65402")
    ensures Key(stringKeys, 3) == (if stringKeys then "policy" else "key65403")
    ensures Key(stringKeys, 4) == (if stringKeys then "realm" else "key65404")
    ensures Key(stringKeys, 5) == (if stringKeys then "sig" else "key65405")
    ensures Key(stringKeys, 6) == (if stringKeys then "connect-class" else "key65406")
    ensures Key(stringKeys, 7) == (if stringKeys then "connect-meta" else "key65407")
    ensures Key(stringKeys, 8) == (if stringKeys then "enroll-uri" else "key65408")
    ensures Key(stringKeys, 9) == (if stringKeys then "well-known" else "key65409")
  {}

  /** And the five others. */
  lemma PublicFields(r: Record, stringKeys: bool)
    ensures var ps := ToParams(r, stringKeys);
      && Get(ps, "alpn") == Some(ProtocolValue(r.protocol))
      && Get(ps, "port") == Given(Some(Decimal(r.port)))
      && Get(ps, "mandatory") == Some("alpn,port")
      && Get(ps, "ipv4hint") == Given(r.ipv4Hint)
      && Get(ps, "ipv6hint") == Given(r.ipv6Hint)
  {
    AlpnIsWritten(r, stringKeys);
    forall n | 0 <= n < 5 ensures Get(ToParams(r, stringKeys), PUBLIC[n]) == Given(PublicSlots(r)[n].val) {
      FieldsAreWritten(r, stringKeys, n);
    }
    assert PUBLIC[1] == "port" && PUBLIC[2] == "mandatory" && PUBLIC[3] == "ipv4hint" && PUBLIC[4] == "ipv6hint";
  }

  function Number(digits: string): int {
    if digits == [] then 0 else 10 * Number(digits[..|digits| - 1]) + (digits[|digits| - 1] as int - '0' as int)
  }

  /** A port is written in decimal digits, with no zero in front. */
  lemma {:induction false} DecimalReads(n: nat)
    ensures var d := Decimal(n); d != [] && Number(d) == n && (forall c :: c in d ==> IsDigit(c)) && (n > 0 ==> d[0] != '0')
  {
    if n >= 10 {
      DecimalReads(n / 10);
      assert Decimal(n)[..|Decimal(n)| - 1] == Decimal(n / 10);
    }
  }

  lemma SlotKey(r: Record, stringKeys: bool, n: nat)
    requires n < 15
    ensures (PublicSlots(r) + PrivateSlots(r, stringKeys))[n].key == if n < 5 then PUBLIC[n] else Key(stringKeys, n - 5)
  {}

  lemma KeysHaveNoEquals(stringKeys: bool, n: nat)
    ensures n < 5 ==> '=' !in PUBLIC[n]
    ensures n < 10 ==> '=' !in Key(stringKeys, n)
  {
    if n < 10 && !stringKeys {
      assert forall c :: c in Key(false, n) ==> c in "key6540" || c == ('0' as int + n) as char;
    }
  }

  /** Nothing else is written, and no parameter is written twice. */
  lemma ParamsWellFormed(r: Record, stringKeys: bool)
    ensures Unique(ToParams(r, stringKeys))
    ensures forall i :: 0 <= i < |ToParams(r, stringKeys)| ==> '=' !in ToParams(r, stringKeys)[i].key
    ensures forall k :: k in Keys(ToParams(r, stringKeys)) ==> k in PUBLIC || exists n :: 0 <= n < 10 && k == Key(stringKeys, n)
  {
    var slots, ps := PublicSlots(r) + PrivateSlots(r, stringKeys), ToParams(r, stringKeys);
    FilledKeys(slots);
    forall k | k in Keys(ps) ensures '=' !in k && (k in PUBLIC || exists n :: 0 <= n < 10 && k == Key(stringKeys, n)) {
      var i :| 0 <= i < |slots| && slots[i].key == k;
      SlotKey(r, stringKeys, i);
      KeysHaveNoEquals(stringKeys, if i < 5 then i else i - 5);
    }
    forall i | 0 <= i < |ps| ensures '=' !in ps[i].key {
      assert ps[i].key in Keys(ps);
    }
  }

  // ---- every field reaches the zone ----

  lemma GivenIsThere(ps: Publishing.Params, key: string, value: string)
    requires Get(ps, key) == Some(value)
    ensures Item(key, value) in ps
  {
    assert ps[Index(ps, key)] == Item(key, value);
  }

  lemma InEither(a: Publishing.Params, b: Publishing.Params, whole: Publishing.Params, p: Item<string, string>)
    requires multiset(a) + multiset(b) == multiset(whole) && p in whole
    ensures p in a || p in b
  {
    assert p in multiset(whole);
  }

  /** Whatever the key style, the backend's support and the failures on the way, a record that is published
      has every private field that is given at its owner: in the SVCB record or as a TXT value. */
  lemma RecordLands(s: Store, answer: Responses, r: Record, stringKeys: bool, support: Publishing.Support, n: nat)
    requires n < 10 && Given(PrivateValues(r)[n]).Some?
    requires Publishing.Publish(s, answer, ToAgent(r, stringKeys), support).1
    ensures var o := Look(Publishing.Publish(s, answer, ToAgent(r, stringKeys), support).0.records, r.domain, r.name);
      var p := Item(Key(stringKeys, n), PrivateValues(r)[n].value);
      && Publishing.Landed(o, ToAgent(r, stringKeys), Publishing.Demotes(answer, s.calls, ToAgent(r, stringKeys), support))
      && (p in o.svcb.value.params || p in Publishing.Recovered(o.txt.value))
  {
    var a := ToAgent(r, stringKeys);
    var o := Look(Publishing.Publish(s, answer, a, support).0.records, r.domain, r.name);
    ParamsWellFormed(r, stringKeys);
    Publishing.PublishLands(s, answer, a, support, a.domain, a.name);
    FieldsAreWritten(r, stringKeys, n);
    GivenIsThere(a.params, Key(stringKeys, n), PrivateValues(r)[n].value);
    InEither(o.svcb.value.params, Publishing.Recovered(o.txt.value), a.params, Item(Key(stringKeys, n), PrivateValues(r)[n].value));
  }
}
