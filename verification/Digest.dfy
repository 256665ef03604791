/** The canonical encoding of a record's parameters that the signature covers. */
module Digest {
  import opened Wrappers
  import opened OrderedDict
  import opened Ordering
  import opened Utf8
  import opened Text

  /** Parameters in insertion order; None is an absent value, distinct from an empty one. */
  type Params = seq<Item<string, Option<string>>>

  // ---- JSON strings (section 7 of RFC 8259), non-ASCII characters left as they are ----

  function HexDigit(n: nat): char
    requires n < 16
  {
    if n < 10 then (n + '0' as int) as char else (n - 10 + 'a' as int) as char
  }

  function JsonChar(c: char): (r: string)
    ensures r != [] && r[0] != '"'
  {
    var n := c as int;
    if c == '"' then "\\\""
    else if c == '\\' then "\\\\"
    else if n == 0x0A then "\\n"
    else if n == 0x0D then "\\r"
    else if n == 0x09 then "\\t"
    else if n == 0x0C then "\\f"
    else if n == 0x08 then "\\b"
    else if n < 0x20 then ['\\', 'u', '0', '0', HexDigit(n / 16), HexDigit(n % 16)]
    else [c]
  }

  function JsonChars(s: string): string {
    if s == [] then [] else JsonChar(s[0]) + JsonChars(s[1..])
  }

  function JsonString(s: string): string {
    "\"" + JsonChars(s) + "\""
  }

  function JsonMember(m: (string, string)): string {
    JsonString(m.0) + ":" + JsonString(m.1)
  }

  /** Members and closing brace, with no white space. */
  function JsonMembers(ms: seq<(string, string)>): string {
    if ms == [] then "}"
    else JsonMember(ms[0]) + (if |ms| == 1 then "}" else "," + JsonMembers(ms[1..]))
  }

  function JsonObject(ms: seq<(string, string)>): string {
    "{" + JsonMembers(ms)
  }

  // ---- the digest's input ----

  /** The parameters that carry a value. */
  function Present(params: Params): seq<(string, string)> {
    if params == [] then []
    else (if params[0].val.Some? then [(params[0].key, params[0].val.value)] else []) + Present(params[1..])
  }

  const PREFIX: string := "svcb1:"

  function Raw(params: Params): seq<byte> {
    Encode(PREFIX) + Encode(JsonObject(Sort(Present(params), PairLe)))
  }

  function SvcbDigest(params: Params, hash: seq<byte> -> string): string {
    hash(Raw(params))
  }

  /** What the parameters say: values by name. */
  ghost function Meaning(params: Params): map<string, string> {
    map k | k in Keys(params) && Get(params, k).Some? && Get(params, k).value.Some? :: Get(params, k).value.value
  }

  // ---- reading the encoding back ----

  lemma JsonCharPrefixFree(c: char, u: string, d: char, v: string)
    requires JsonChar(c) + u == JsonChar(d) + v
    ensures c == d && u == v
  {
    var a, b := JsonChar(c), JsonChar(d);
    assert (a + u)[0] == (b + v)[0];
    assert forall i :: 0 <= i < |a| ==> (a + u)[i] == a[i];
    assert forall i :: 0 <= i < |b| ==> (b + v)[i] == b[i];
    if a[0] == '\\' && b[0] == '\\' {
      assert (a + u)[1] == (b + v)[1];
      if a[1] == 'u' && b[1] == 'u' {
        assert (a + u)[4] == (b + v)[4] && (a + u)[5] == (b + v)[5];
      }
    }
    assert a == b;
    assert u == (a + u)[|a|..] && v == (b + v)[|b|..];
  }

  lemma JsonCharsHead(s: string, rest: string)
    ensures s == [] ==> JsonChars(s) + rest == rest
    ensures s != [] ==> JsonChars(s) + rest == JsonChar(s[0]) + (JsonChars(s[1..]) + rest)
    ensures s != [] ==> (JsonChars(s) + rest)[0] != '"'
  {
    if s == [] {
      assert JsonChars(s) + rest == rest;
    } else {
      Regroup(JsonChar(s[0]), JsonChars(s[1..]), rest);
    }
  }

  lemma TailEqual(c: char, u: string, v: string)
    requires [c] + u == [c] + v
    ensures u == v
  {
    assert ([c] + u)[1..] == u && ([c] + v)[1..] == v;
  }

  /** A string literal ends where it ends: nothing in it can be mistaken for its closing quote. */
  lemma {:induction false} JsonCharsInjective(a: string, u: string, b: string, v: string)
    requires JsonChars(a) + ("\"" + u) == JsonChars(b) + ("\"" + v)
    ensures a == b && u == v
  {
    JsonCharsHead(a, "\"" + u);
    JsonCharsHead(b, "\"" + v);
    if a == [] || b == [] {
      assert a == [] && b == [];
      TailEqual('"', u, v);
    } else {
      var la, rb := JsonChars(a[1..]) + ("\"" + u), JsonChars(b[1..]) + ("\"" + v);
      JsonCharPrefixFree(a[0], la, b[0], rb);
      JsonCharsInjective(a[1..], u, b[1..], v);
      assert a == [a[0]] + a[1..] && b == [b[0]] + b[1..];
    }
  }

  lemma JsonStringGroups(s: string, rest: string)
    ensures JsonString(s) + rest == "\"" + (JsonChars(s) + ("\"" + rest))
  {}

  lemma JsonStringInjective(a: string, u: string, b: string, v: string)
    requires JsonString(a) + u == JsonString(b) + v
    ensures a == b && u == v
  {
    JsonStringGroups(a, u);
    JsonStringGroups(b, v);
    TailEqual('"', JsonChars(a) + ("\"" + u), JsonChars(b) + ("\"" + v));
    JsonCharsInjective(a, u, b, v);
  }

  lemma JsonMemberGroups(m: (string, string), rest: string)
    ensures JsonMember(m) + rest == JsonString(m.0) + (":" + (JsonString(m.1) + rest))
  {
    Regroup(JsonString(m.0), ":", JsonString(m.1));
    Regroup(JsonString(m.0), ":" + JsonString(m.1), rest);
    Regroup(":", JsonString(m.1), rest);
  }

  lemma JsonMemberInjective(m: (string, string), u: string, n: (string, string), v: string)
    requires JsonMember(m) + u == JsonMember(n) + v
    ensures m == n && u == v
  {
    JsonMemberGroups(m, u);
    JsonMemberGroups(n, v);
    JsonStringInjective(m.0, ":" + (JsonString(m.1) + u), n.0, ":" + (JsonString(n.1) + v));
    TailEqual(':', JsonString(m.1) + u, JsonString(n.1) + v);
    JsonStringInjective(m.1, u, n.1, v);
  }

  function MembersTail(ms: seq<(string, string)>): string
    requires ms != []
  {
    if |ms| == 1 then "}" else "," + JsonMembers(ms[1..])
  }

  lemma MembersStart(ms: seq<(string, string)>)
    ensures (JsonMembers(ms)[0] == '}') == (ms == [])
  {
    if ms != [] {
      assert JsonMembers(ms)[0] == '"';
    }
  }

  lemma {:induction false} JsonMembersInjective(ms: seq<(string, string)>, ns: seq<(string, string)>)
    requires JsonMembers(ms) == JsonMembers(ns)
    ensures ms == ns
  {
    MembersStart(ms);
    MembersStart(ns);
    if ms != [] {
      JsonMemberInjective(ms[0], MembersTail(ms), ns[0], MembersTail(ns));
      assert MembersTail(ms)[0] == MembersTail(ns)[0];
      assert |ms| == 1 <==> |ns| == 1;
      if |ms| > 1 {
        TailEqual(',', JsonMembers(ms[1..]), JsonMembers(ns[1..]));
        JsonMembersInjective(ms[1..], ns[1..]);
      }
      assert ms == [ms[0]] + ms[1..] && ns == [ns[0]] + ns[1..];
    }
  }

  lemma EncodeInjective(a: string, b: string)
    requires Encode(a) == Encode(b)
    ensures a == b
  {
    DecodeEncode(a);
    DecodeEncode(b);
  }

  lemma RawOfSorted(a: Params, b: Params)
    ensures Raw(a) == Raw(b) <==> multiset(Present(a)) == multiset(Present(b))
  {
    PairsOrdered();
    SortCanonical(Present(a), Present(b), PairLe);
    if Raw(a) == Raw(b) {
      var sa, sb := Sort(Present(a), PairLe), Sort(Present(b), PairLe);
      assert Raw(a)[|Encode(PREFIX)|..] == Encode(JsonObject(sa));
      assert Raw(b)[|Encode(PREFIX)|..] == Encode(JsonObject(sb));
      EncodeInjective(JsonObject(sa), JsonObject(sb));
      assert JsonObject(sa)[1..] == JsonMembers(sa) && JsonObject(sb)[1..] == JsonMembers(sb);
      JsonMembersInjective(sa, sb);
    }
  }

  lemma {:induction false} PresentIs(params: Params, m: (string, string))
    ensures m in Present(params) <==> Item(m.0, Some(m.1)) in params
  {
    if params != [] {
      PresentIs(params[1..], m);
      assert params == [params[0]] + params[1..];
    }
  }

  lemma {:induction false} PresentUnique(params: Params)
    requires Unique(params)
    ensures NoDuplicates(Present(params))
  {
    if params != [] {
      PresentUnique(params[1..]);
      var rest := Present(params[1..]);
      forall i | 0 <= i < |rest| ensures rest[i].0 != params[0].key {
        PresentIs(params[1..], rest[i]);
        var j :| 0 <= j < |params[1..]| && params[1..][j] == Item(rest[i].0, Some(rest[i].1));
        assert params[j + 1].key == rest[i].0;
      }
    }
  }

  lemma MeaningIs(params: Params, k: string, v: string)
    requires Unique(params)
    ensures (k in Meaning(params) && Meaning(params)[k] == v) <==> Item(k, Some(v)) in params
  {
    if Item(k, Some(v)) in params {
      var i :| 0 <= i < |params| && params[i] == Item(k, Some(v));
      assert Index(params, k) == i;
      assert k in Keys(params);
    }
  }

  /** The encoding is unambiguous and does not depend on the order parameters were given in. */
  lemma RawExactly(a: Params, b: Params)
    requires Unique(a) && Unique(b)
    ensures Raw(a) == Raw(b) <==> Meaning(a) == Meaning(b)
  {
    RawOfSorted(a, b);
    PresentUnique(a);
    PresentUnique(b);
    forall m: (string, string)
      ensures m in Present(a) <==> (m.0 in Meaning(a) && Meaning(a)[m.0] == m.1)
      ensures m in Present(b) <==> (m.0 in Meaning(b) && Meaning(b)[m.0] == m.1)
    {
      PresentIs(a, m);
      PresentIs(b, m);
      MeaningIs(a, m.0, m.1);
      MeaningIs(b, m.0, m.1);
    }
    if Meaning(a) == Meaning(b) {
      SameElements(Present(a), Present(b));
    } else if multiset(Present(a)) == multiset(Present(b)) {
      forall m: (string, string) ensures m in Present(a) <==> m in Present(b) {
        assert m in multiset(Present(a)) <==> m in multiset(Present(b));
      }
      MapsAgree(Meaning(a), Meaning(b), Present(a), Present(b));
    }
  }

  lemma MapsAgree(f: map<string, string>, g: map<string, string>, a: seq<(string, string)>, b: seq<(string, string)>)
    requires forall m: (string, string) :: m in a <==> (m.0 in f && f[m.0] == m.1)
    requires forall m: (string, string) :: m in b <==> (m.0 in g && g[m.0] == m.1)
    requires forall m: (string, string) :: m in a <==> m in b
    ensures f == g
  {
    forall k | k in f ensures k in g && g[k] == f[k] {
      assert (k, f[k]) in a;
    }
    forall k | k in g ensures k in f {
      assert (k, g[k]) in b;
    }
  }

  // ---- reading the parameters off a record ----

  /** The parameters a signature covers, in the order they are read. */
  const SIGNED: seq<string> := ["cap", "cap-sha256", "bap", "policy", "realm", "connect-class", "connect-meta", "enroll-uri", "well-known"]

  /** A record, as far as the covered parameters go. */
  type Fields = string -> Option<string>

  /** An empty field reads as absent. */
  function NonEmpty(v: Option<string>): Option<string> {
    if v.Some? && v.value != [] then v else None
  }

  function ParamsFromRecord(r: Fields): Params {
    seq(|SIGNED|, i requires 0 <= i < |SIGNED| => Item(SIGNED[i], NonEmpty(r(SIGNED[i]))))
  }

  /** The same values under the nine names, an empty one counting as none. */
  ghost predicate SameFields(a: Fields, b: Fields) {
    forall k :: k in {"cap", "cap-sha256", "bap", "policy", "realm", "connect-class", "connect-meta", "enroll-uri", "well-known"}
      ==> NonEmpty(a(k)) == NonEmpty(b(k))
  }

  lemma SignedDistinct()
    ensures forall i, j :: 0 <= i < j < |SIGNED| ==> SIGNED[i] != SIGNED[j]
  {}

  lemma SameFieldsMeans(a: Fields, b: Fields)
    ensures SameFields(a, b) <==> forall i :: 0 <= i < |SIGNED| ==> NonEmpty(a(SIGNED[i])) == NonEmpty(b(SIGNED[i]))
  {
    assert SIGNED[0] == "cap" && SIGNED[1] == "cap-sha256" && SIGNED[2] == "bap" && SIGNED[3] == "policy" && SIGNED[4] == "realm";
    assert SIGNED[5] == "connect-class" && SIGNED[6] == "connect-meta" && SIGNED[7] == "enroll-uri" && SIGNED[8] == "well-known";
  }

  lemma ReadParams(r: Fields, i: nat)
    requires i < |SIGNED|
    ensures Unique(ParamsFromRecord(r))
    ensures forall v :: (SIGNED[i] in Meaning(ParamsFromRecord(r)) && Meaning(ParamsFromRecord(r))[SIGNED[i]] == v)
                    <==> NonEmpty(r(SIGNED[i])) == Some(v)
  {
    var p := ParamsFromRecord(r);
    SignedDistinct();
    assert Unique(p);
    forall v ensures Item(SIGNED[i], Some(v)) in p <==> NonEmpty(r(SIGNED[i])) == Some(v) {
      assert p[i] == Item(SIGNED[i], NonEmpty(r(SIGNED[i])));
      if Item(SIGNED[i], Some(v)) in p {
        var j :| 0 <= j < |p| && p[j] == Item(SIGNED[i], Some(v));
        assert j == i;
      }
    }
    forall v { MeaningIs(p, SIGNED[i], v); }
  }

  lemma RawBindsFields(a: Fields, b: Fields)
    ensures SameFields(a, b) <==> Raw(ParamsFromRecord(a)) == Raw(ParamsFromRecord(b))
  {
    var pa, pb := ParamsFromRecord(a), ParamsFromRecord(b);
    ReadParams(a, 0);
    ReadParams(b, 0);
    RawExactly(pa, pb);
    SameFieldsMeans(a, b);
    if SameFields(a, b) {
      assert pa == pb;
    } else {
      var i :| 0 <= i < |SIGNED| && NonEmpty(a(SIGNED[i])) != NonEmpty(b(SIGNED[i]));
      ReadParams(a, i);
      ReadParams(b, i);
      assert Meaning(pa) != Meaning(pb);
    }
  }

  /** Signer and verifier arrive at the same digest exactly when their records carry the same
      non-empty parameters; if they do not, the two encodings are a hash collision. */
  lemma DigestBindsFields(a: Fields, b: Fields, hash: seq<byte> -> string)
    ensures SameFields(a, b) ==> SvcbDigest(ParamsFromRecord(a), hash) == SvcbDigest(ParamsFromRecord(b), hash)
    ensures !SameFields(a, b) && SvcbDigest(ParamsFromRecord(a), hash) == SvcbDigest(ParamsFromRecord(b), hash) ==>
      var x, y := Raw(ParamsFromRecord(a)), Raw(ParamsFromRecord(b)); x != y && hash(x) == hash(y)
  {
    RawBindsFields(a, b);
  }

  /** An empty value and an absent one digest differently wherever the difference can be expressed. */
  lemma EmptyIsNotAbsent(k: string)
    ensures Raw([Item(k, Some(""))]) != Raw([Item(k, None)])
  {
    var a, b: Params := [Item(k, Some(""))], [Item(k, None)];
    RawExactly(a, b);
    MeaningIs(a, k, "");
    MeaningIs(b, k, "");
    assert a[0] in a;
  }

  // ---- signing what will be published ----

  const CLASS := "connect-class"

  /** The one signed field that the record model rewrites on the way in. */
  function NormalClass(v: Option<string>): Option<string> {
    if v.None? || Strip(v.value) == [] then None else Some(Lower(Strip(v.value)))
  }

  /** The record built from a publisher's arguments, or from a published record. */
  function Normalised(args: Fields): Fields {
    k => if k == CLASS then NormalClass(args(k)) else args(k)
  }

  lemma NormalForm(t: string)
    requires t != [] && Trimmed(t) && IsLower(t)
    ensures NormalClass(Some(t)) == Some(t)
  {
    StripTrimmed(t);
    LowerFixed(t);
  }

  lemma IsNormalForm(s: string)
    ensures Trimmed(Lower(Strip(s))) && IsLower(Lower(Strip(s))) && |Lower(Strip(s))| <= |s|
  {
    StripIsTrimmed(s);
    LowerIsTrimmed(Strip(s));
    LowerIsLower(Strip(s));
  }

  lemma NormalTwice(v: Option<string>)
    ensures NormalClass(NormalClass(v)) == NormalClass(v)
  {
    if v.Some? && Strip(v.value) != [] {
      IsNormalForm(v.value);
      NormalForm(Lower(Strip(v.value)));
    }
  }

  /** Already as the model would leave it. */
  predicate ClassIsNormal(v: Option<string>) {
    v.None? || (Trimmed(v.value) && IsLower(v.value))
  }

  lemma NormalExactly(v: Option<string>)
    ensures NonEmpty(NormalClass(v)) == NonEmpty(v) <==> ClassIsNormal(v)
  {
    if v.Some? && v.value != [] {
      IsNormalForm(v.value);
      if ClassIsNormal(v) {
        NormalForm(v.value);
      }
    }
  }

  lemma ClassAt(a: Fields)
    ensures SIGNED[5] == CLASS
    ensures SameFields(a, Normalised(a)) <==> NonEmpty(a(CLASS)) == NonEmpty(NormalClass(a(CLASS)))
  {
    var b := Normalised(a);
    SignedDistinct();
    assert SIGNED[5] == CLASS;
    assert forall i :: 0 <= i < |SIGNED| && i != 5 ==> b(SIGNED[i]) == a(SIGNED[i]);
    assert b(SIGNED[5]) == NormalClass(a(CLASS));
  }

  /** Signing the normalised record is signing what the verifier reads back, for every argument; signing the
      arguments themselves is so exactly when the connect class was in normal form. */
  lemma NormaliseThenSign(args: Fields, hash: seq<byte> -> string)
    ensures SvcbDigest(ParamsFromRecord(Normalised(args)), hash) == SvcbDigest(ParamsFromRecord(Normalised(Normalised(args))), hash)
    ensures Raw(ParamsFromRecord(args)) == Raw(ParamsFromRecord(Normalised(args))) <==> ClassIsNormal(args(CLASS))
  {
    NormalTwice(args(CLASS));
    ClassAt(Normalised(args));
    RawBindsFields(Normalised(args), Normalised(Normalised(args)));
    ClassAt(args);
    NormalExactly(args(CLASS));
    RawBindsFields(args, Normalised(args));
  }

  // ---- the encoding read by the rules of JSON ----

  function HexValue(c: char): nat {
    if '0' <= c <= '9' then c as int - '0' as int else if 'a' <= c <= 'f' then c as int - 'a' as int + 10 else 0
  }

  /** What one character after a backslash stands for (section 7 of RFC 8259). */
  function Unescaped(c: char): char {
    match c
    case 'b' => 0x08 as char
    case 't' => 0x09 as char
    case 'n' => 0x0A as char
    case 'f' => 0x0C as char
    case 'r' => 0x0D as char
    case _ => c
  }

  function FourHex(t: string): nat
    requires |t| >= 4
  {
    (HexValue(t[0]) * 16 + HexValue(t[1])) * 256 + HexValue(t[2]) * 16 + HexValue(t[3])
  }

  /** The characters between the quotation marks of a JSON string, escapes resolved. */
  function ReadJson(t: string): string {
    if t == [] then []
    else if t[0] != '\\' || |t| == 1 then [t[0]] + ReadJson(t[1..])
    else if t[1] == 'u' && |t| >= 6 && FourHex(t[2..6]) < 0xD800 then [FourHex(t[2..6]) as char] + ReadJson(t[6..])
    else [Unescaped(t[1])] + ReadJson(t[2..])
  }

  lemma JsonCharReads(c: char, rest: string)
    ensures ReadJson(JsonChar(c) + rest) == [c] + ReadJson(rest)
  {
    var e := JsonChar(c);
    var t := e + rest;
    assert t[|e|..] == rest;
    if |e| == 6 {
      var n := c as int;
      assert t[2..6] == ['0', '0', HexDigit(n / 16), HexDigit(n % 16)];
      assert FourHex(t[2..6]) == n;
    }
  }

  /** A JSON reader gets the text back. */
  lemma {:induction false} JsonReadsBack(s: string)
    ensures ReadJson(JsonChars(s)) == s
  {
    if s != [] {
      JsonCharReads(s[0], JsonChars(s[1..]));
      JsonReadsBack(s[1..]);
    }
  }

  lemma SortTwo(a: (string, string), b: (string, string))
    requires !PairLe(b, a)
    ensures Sort([a, b], PairLe) == [a, b]
    ensures PairLe(a, b) ==> Sort([b, a], PairLe) == [a, b]
  {
    PairsOrdered();
    assert [a, b][1..] == [b] && [b, a][1..] == [a] && [a][1..] == [] && [b][1..] == [];
    assert Sort([a], PairLe) == [a] && Sort([b], PairLe) == [b];
    assert Insert(a, [b], PairLe) == [a] + [b];
    assert Insert(b, [], PairLe) == [b];
    assert Insert(b, [a], PairLe) == [a] + Insert(b, [a][1..], PairLe);
  }

  lemma TwoMembers(a: (string, string), b: (string, string))
    ensures JsonObject([a, b]) == "{" + (JsonMember(a) + ("," + (JsonMember(b) + "}")))
  {
    assert [a, b][1..] == [b];
    assert JsonMembers([b]) == JsonMember(b) + "}";
  }

  lemma PlainMember(k: string, v: string)
    requires (forall i :: 0 <= i < |k| ==> 'a' <= k[i] <= 'z') && (forall i :: 0 <= i < |v| ==> 'a' <= v[i] <= 'z')
    ensures JsonMember((k, v)) == "\"" + k + "\":\"" + v + "\""
  {
    PlainString(k);
    PlainString(v);
    assert ("\"" + k + "\"") + ":" + ("\"" + v + "\"") == "\"" + k + "\":\"" + v + "\"";
  }

  lemma PresentOf(k: string, v: string, rest: Params)
    ensures Present([Item(k, Some(v))] + rest) == [(k, v)] + Present(rest)
    ensures Present([Item(k, None)] + rest) == Present(rest)
  {
    assert ([Item(k, Some(v))] + rest)[1..] == rest;
    assert ([Item(k, None)] + rest)[1..] == rest;
    assert [] + Present(rest) == Present(rest);
  }

  lemma RawOfTwo(ps: Params, a: (string, string), b: (string, string))
    requires Present(ps) == [b, a] && PairLe(a, b) && !PairLe(b, a)
    ensures Raw(ps) == Encode("svcb1:" + ("{" + (JsonMember(a) + ("," + (JsonMember(b) + "}")))))
  {
    SortTwo(a, b);
    TwoMembers(a, b);
    EncodeAppend(PREFIX, JsonObject([a, b]));
  }

  const CAP: string := "\"cap\":\"u\""
  const REALM: string := "\"realm\":\"t\""

  lemma ExampleMembers()
    ensures JsonMember(("cap", "u")) == CAP && JsonMember(("realm", "t")) == REALM
  {
    PlainMember("cap", "u");
    PlainMember("realm", "t");
  }

  lemma ExampleSorted()
    ensures PairLe(("cap", "u"), ("realm", "t")) && !PairLe(("realm", "t"), ("cap", "u"))
  {
    assert "cap"[0] < "realm"[0];
  }

  /** What is hashed, for a record with two of the parameters: the prefix and a JSON object with sorted keys,
      no white space and nothing for what is absent. */
  lemma EncodingExample(ps: Params)
    requires ps == [Item("realm", Some("t")), Item("bap", None), Item("cap", Some("u"))]
    ensures Raw(ps) == Encode("svcb1:" + ("{" + (CAP + ("," + (REALM + "}")))))
  {
    ExamplePresent(ps);
    ExampleSorted();
    RawOfTwo(ps, ("cap", "u"), ("realm", "t"));
    ExampleMembers();
  }

  lemma ExamplePresent(ps: Params)
    requires ps == [Item("realm", Some("t")), Item("bap", None), Item("cap", Some("u"))]
    ensures Present(ps) == [("realm", "t"), ("cap", "u")]
  {
    var none: Params := [];
    PresentOf("cap", "u", none);
    PresentOf("bap", "", [Item("cap", Some("u"))]);
    PresentOf("realm", "t", [Item("bap", None), Item("cap", Some("u"))]);
    assert [Item("cap", Some("u"))] + none == [Item("cap", Some("u"))];
    assert [Item("bap", None)] + [Item("cap", Some("u"))] == [Item("bap", None), Item("cap", Some("u"))];
    assert ps == [Item("realm", Some("t"))] + [Item("bap", None), Item("cap", Some("u"))];
  }

  lemma {:induction false} PlainString(s: string)
    requires forall i :: 0 <= i < |s| ==> 'a' <= s[i] <= 'z'
    ensures JsonChars(s) == s && JsonString(s) == "\"" + s + "\""
  {
    if s != [] {
      PlainString(s[1..]);
      assert s == [s[0]] + s[1..];
    }
  }
}
