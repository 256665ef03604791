/** Compact JWS signatures over record payloads: header.payload.signature, ES256 only. */
module Jws {
  import opened Wrappers
  import opened Text
  import opened Utf8
  import opened Base64Url
  import V = Verdict

  datatype Payload = Payload(fqdn: string, target: string, port: int, alpn: string, iat: int, exp: int, svcb: Option<string>)

  datatype Header = Header(alg: Option<string>, kid: Option<string>)

  /** A decoded payload object; any claim may be missing. */
  datatype Claims = Claims(fqdn: Option<string>, target: Option<string>, port: Option<int>, alpn: Option<string>,
                           iat: Option<int>, exp: Option<int>, svcb: Option<string>)

  /** JSON writing and reading, None for text that is not the expected object. */
  datatype Json = Json(
    dumpHeader: Header -> string,
    loadHeader: string -> Option<Header>,
    dumpPayload: Payload -> string,
    loadPayload: string -> Option<Claims>)

  /** ECDSA over P-256 with SHA-256; a signature is a pair of integers. */
  datatype Ecdsa = Ecdsa(
    publicKey: nat -> nat,
    sign: (nat, string) -> (nat, nat),
    verify: (nat, string, nat, nat) -> bool)

  function ClaimsOf(p: Payload): Claims {
    Claims(Some(p.fqdn), Some(p.target), Some(p.port), Some(p.alpn), Some(p.iat), Some(p.exp), p.svcb)
  }

  /** Reading inverts writing. */
  ghost predicate JsonLaws(j: Json) {
    && (forall h :: j.loadHeader(j.dumpHeader(h)) == Some(h))
    && (forall p :: j.loadPayload(j.dumpPayload(p)) == Some(ClaimsOf(p)))
  }

  /** Signatures verify under their own key, and their components fit a field element. */
  ghost predicate EcdsaLaws(e: Ecdsa) {
    forall sk, m ::
      && e.verify(e.publicKey(sk), m, e.sign(sk, m).0, e.sign(sk, m).1)
      && e.sign(sk, m).0 < Pow256(32) && e.sign(sk, m).1 < Pow256(32)
  }

  // ---- the 64-octet form of a signature (section 3.4 of RFC 7518) ----

  function Pow256(n: nat): (p: nat)
    ensures p > 0
  {
    if n == 0 then 1 else 256 * Pow256(n - 1)
  }

  function ToBytes(v: nat, n: nat): (b: seq<byte>)
    ensures |b| == n
  {
    if n == 0 then [] else ToBytes(v / 256, n - 1) + [v % 256]
  }

  function FromBytes(b: seq<byte>): nat {
    if b == [] then 0 else FromBytes(b[..|b| - 1]) * 256 + b[|b| - 1]
  }

  lemma {:induction false} FromToBytes(v: nat, n: nat)
    requires v < Pow256(n)
    ensures FromBytes(ToBytes(v, n)) == v
  {
    if n > 0 {
      FromToBytes(v / 256, n - 1);
      assert ToBytes(v, n)[..n - 1] == ToBytes(v / 256, n - 1);
    }
  }

  function RawSignature(r: nat, s: nat): seq<byte> {
    ToBytes(r, 32) + ToBytes(s, 32)
  }

  function SignatureParts(raw: seq<byte>): (nat, nat) {
    var n := if |raw| < 32 then |raw| else 32;
    (FromBytes(raw[..n]), FromBytes(raw[n..]))
  }

  lemma SignaturePartsOfRaw(r: nat, s: nat)
    requires r < Pow256(32) && s < Pow256(32)
    ensures SignatureParts(RawSignature(r, s)) == (r, s)
  {
    FromToBytes(r, 32);
    FromToBytes(s, 32);
    assert RawSignature(r, s)[..32] == ToBytes(r, 32) && RawSignature(r, s)[32..] == ToBytes(s, 32);
  }

  // ---- signing and verifying ----

  function EncodeText(s: string): string {
    EncodeBytes(Encode(s))
  }

  /** Strict: ill-formed UTF-8 is an error. */
  function DecodeText(s: string): Option<string> {
    match DecodeBytes(s)
    case None => None
    case Some(b) => if WellFormed(b) then Some(Decode(b)) else None
  }

  lemma DecodeEncodeText(s: string)
    ensures DecodeText(EncodeText(s)) == Some(s)
  {
    DecodeEncodeBytes(Encode(s));
    DecodeEncode(s);
  }

  const ES256: string := "ES256"

  function SignRecord(p: Payload, sk: nat, kid: Option<string>, j: Json, e: Ecdsa): string {
    var header := EncodeText(j.dumpHeader(Header(Some(ES256), kid)));
    var payload := EncodeText(j.dumpPayload(p));
    var (r, s) := e.sign(sk, header + "." + payload);
    header + "." + payload + "." + EncodeBytes(RawSignature(r, s))
  }

  /** The header of a compact JWS, when its first part decodes to one. */
  function HeaderOf(part: string, j: Json): Option<Header> {
    match DecodeText(part)
    case None => None
    case Some(text) => j.loadHeader(text)
  }

  function JwsKid(jws: string, j: Json): Option<string> {
    var h := HeaderOf(Split(jws, '.')[0], j);
    if h.Some? then h.value.kid else None
  }

  /** The payload, when every claim it needs is there. */
  function Complete(c: Claims): Option<Payload> {
    if c.fqdn.Some? && c.target.Some? && c.port.Some? && c.alpn.Some? && c.iat.Some? && c.exp.Some?
    then Some(Payload(c.fqdn.value, c.target.value, c.port.value, c.alpn.value, c.iat.value, c.exp.value, c.svcb))
    else None
  }

  /** What the payload part says at a given time, whatever key is used. */
  function PayloadVerdict(part: string, j: Json, now: real): V.Check<Payload> {
    match DecodeText(part)
    case None => V.Rejected
    case Some(text) =>
      match j.loadPayload(text)
      case None => V.Rejected
      case Some(c) =>
        if (if c.exp.Some? then c.exp.value else 0) as real < now then V.Lapsed
        else if Complete(c).Some? then V.Accepted(Complete(c).value)
        else V.Rejected
  }

  /** Structure, algorithm and signature octets. */
  predicate BytesVerify(jws: string, pk: nat, j: Json, e: Ecdsa) {
    var parts := Split(jws, '.');
    && |parts| == 3
    && HeaderOf(parts[0], j).Some? && HeaderOf(parts[0], j).value.alg == Some(ES256)
    && Ascii(parts[0] + "." + parts[1])
    && DecodeBytes(parts[2]).Some?
    && (var (r, s) := SignatureParts(DecodeBytes(parts[2]).value);
        e.verify(pk, parts[0] + "." + parts[1], r, s))
  }

  function VerifyDetailed(jws: string, pk: nat, j: Json, e: Ecdsa, now: real): V.Check<Payload> {
    if BytesVerify(jws, pk, j, e) then PayloadVerdict(Split(jws, '.')[1], j, now) else V.Rejected
  }

  /** What a token says under each key. */
  function CheckFor(jws: string, j: Json, e: Ecdsa, now: real): V.PublicKey -> V.Check<Payload> {
    (pk: V.PublicKey) => VerifyDetailed(jws, pk, j, e, now)
  }

  lemma SplitSigned(h: string, p: string, s: string)
    requires '.' !in h && '.' !in p && '.' !in s
    ensures Split(h + "." + p + "." + s, '.') == [h, p, s]
  {
    SplitNone(h, '.');
    SplitNone(p, '.');
    SplitNone(s, '.');
    SplitAppend(h, '.', p);
    SplitAppend(h + "." + p, '.', s);
  }

  lemma SignedParts(p: Payload, sk: nat, kid: Option<string>, j: Json, e: Ecdsa)
    requires JsonLaws(j)
    ensures var header, payload := EncodeText(j.dumpHeader(Header(Some(ES256), kid))), EncodeText(j.dumpPayload(p));
      var (r, s) := e.sign(sk, header + "." + payload);
      && Split(SignRecord(p, sk, kid, j, e), '.') == [header, payload, EncodeBytes(RawSignature(r, s))]
      && Ascii(header + "." + payload)
      && HeaderOf(header, j) == Some(Header(Some(ES256), kid))
  {
    var ht, pt := j.dumpHeader(Header(Some(ES256), kid)), j.dumpPayload(p);
    var header, payload := EncodeText(ht), EncodeText(pt);
    var (r, s) := e.sign(sk, header + "." + payload);
    EncodedAlphabet(Encode(ht));
    EncodedAlphabet(Encode(pt));
    EncodedAlphabet(RawSignature(r, s));
    SplitSigned(header, payload, EncodeBytes(RawSignature(r, s)));
    DecodeEncodeText(ht);
  }

  lemma SignedBytesVerify(p: Payload, sk: nat, kid: Option<string>, j: Json, e: Ecdsa)
    requires JsonLaws(j) && EcdsaLaws(e)
    ensures var jws := SignRecord(p, sk, kid, j, e);
      && BytesVerify(jws, e.publicKey(sk), j, e)
      && Split(jws, '.')[1] == EncodeText(j.dumpPayload(p)) && JwsKid(jws, j) == kid
  {
    var payload := EncodeText(j.dumpPayload(p));
    var input := EncodeText(j.dumpHeader(Header(Some(ES256), kid))) + "." + payload;
    var (r, s) := e.sign(sk, input);
    SignedParts(p, sk, kid, j, e);
    DecodeEncodeBytes(RawSignature(r, s));
    SignaturePartsOfRaw(r, s);
    assert e.verify(e.publicKey(sk), input, r, s);
  }

  lemma PayloadReads(p: Payload, j: Json, now: real)
    requires JsonLaws(j)
    ensures PayloadVerdict(EncodeText(j.dumpPayload(p)), j, now) == if p.exp as real >= now then V.Accepted(p) else V.Lapsed
  {
    DecodeEncodeText(j.dumpPayload(p));
  }

  /** A freshly signed record verifies under its own key, and reads as lapsed once its expiry has passed. */
  lemma SignThenVerify(p: Payload, sk: nat, kid: Option<string>, j: Json, e: Ecdsa, now: real)
    requires JsonLaws(j) && EcdsaLaws(e)
    ensures VerifyDetailed(SignRecord(p, sk, kid, j, e), e.publicKey(sk), j, e, now)
         == if p.exp as real >= now then V.Accepted(p) else V.Lapsed
    ensures JwsKid(SignRecord(p, sk, kid, j, e), j) == kid
  {
    SignedBytesVerify(p, sk, kid, j, e);
    PayloadReads(p, j, now);
  }

  /** Which key verifies a signature does not change what the signature says. */
  lemma ChecksAreUniform(jws: string, j: Json, e: Ecdsa, now: real)
    ensures V.Uniform(pk => VerifyDetailed(jws, pk, j, e, now))
  {}

  /** Acceptance means that the key verifies the octets and the payload has not expired. */
  lemma AcceptedMeans(jws: string, pk: nat, j: Json, e: Ecdsa, now: real)
    requires VerifyDetailed(jws, pk, j, e, now).Accepted?
    ensures BytesVerify(jws, pk, j, e)
    ensures VerifyDetailed(jws, pk, j, e, now).payload.exp as real >= now
  {}

  /** A publisher that lists its signing key under the key id it signs with, or signs without one,
      is verified by every consumer of that key set, whatever else the set holds and in whatever order. */
  lemma PublishedKeyVerifies(p: Payload, sk: nat, kid: Option<string>, keys: seq<V.Jwk>, i: nat,
                             budget: bool, refetched: Option<seq<V.Jwk>>, j: Json, e: Ecdsa, now: real)
    requires JsonLaws(j) && EcdsaLaws(e)
    requires i < |keys| && keys[i].Jwk? && keys[i].key == Some(e.publicKey(sk)) && (kid.Some? ==> keys[i].kid == kid)
    ensures var jws := SignRecord(p, sk, kid, j, e);
      V.Decide(Some(keys), JwsKid(jws, j), budget, refetched, pk => VerifyDetailed(jws, pk, j, e, now))
        == if p.exp as real >= now then V.Verified(p) else V.Expired
  {
    var jws := SignRecord(p, sk, kid, j, e);
    var check := pk => VerifyDetailed(jws, pk, j, e, now);
    SignThenVerify(p, sk, kid, j, e, now);
    assert e.publicKey(sk) in V.Usable(keys, kid);
    V.AgainstOutcome(keys, kid, check);
    var r := V.Against(V.CandidateKeys(keys, kid), check);
    assert !check(e.publicKey(sk)).Rejected?;
    assert V.IsPositive(r);
    var k :| k in V.Usable(keys, kid) && check(k) == r.value;
  }

  /** A publisher that has rolled its key over, and lists the new one under the key id it signs with, is
      verified once the cached set has no usable key of that name and there is budget for a refetch,
      whatever else either set holds. */
  lemma RolledOverKeyVerifies(p: Payload, sk: nat, kid: string, cached: seq<V.Jwk>, keys: seq<V.Jwk>, i: nat,
                              j: Json, e: Ecdsa, now: real)
    requires JsonLaws(j) && EcdsaLaws(e) && V.Usable(cached, Some(kid)) == {}
    requires i < |keys| && keys[i].Jwk? && keys[i].key == Some(e.publicKey(sk)) && keys[i].kid == Some(kid)
    ensures var jws := SignRecord(p, sk, Some(kid), j, e);
      V.Decide(Some(cached), JwsKid(jws, j), true, Some(keys), CheckFor(jws, j, e, now))
        == if p.exp as real >= now then V.Verified(p) else V.Expired
  {
    var jws := SignRecord(p, sk, Some(kid), j, e);
    var check := CheckFor(jws, j, e, now);
    SignThenVerify(p, sk, Some(kid), j, e, now);
    var v, ks := V.Decide(Some(cached), Some(kid), true, Some(keys), check), V.Usable(keys, Some(kid));
    assert e.publicKey(sk) in ks && !check(e.publicKey(sk)).Rejected?;
    if V.LeavesOpen(cached, Some(kid), check) {
      V.RefetchDecides(cached, Some(kid), keys, check);
    } else {
      ks := V.Usable(cached, None);
      V.DocumentDecides(cached, Some(kid), true, Some(keys), check);
    }
    assert V.Says(ks, check, v);
    var k :| k in ks && !check(k).Rejected? && v == V.Final(check(k));
  }

  // ---- exactly which tokens are accepted ----

  /** The token is three parts; the first declares ES256, the second is `payload`, and the third is a
      signature over the two that the key verifies: R in its first 32 octets and S in the rest, most
      significant octet first. */
  ghost predicate Signed(jws: string, header: string, payload: string, raw: seq<byte>, pk: nat, j: Json, e: Ecdsa) {
    && (exists signature :: jws == header + "." + payload + "." + signature && '.' !in signature && DecodeBytes(signature) == Some(raw))
    && '.' !in header && '.' !in payload && Ascii(header) && Ascii(payload)
    && (exists text, kid :: DecodeText(header) == Some(text) && j.loadHeader(text) == Some(Header(Some("ES256"), kid)))
    && e.verify(pk, header + "." + payload,
                FromBytes(if |raw| < 32 then raw else raw[..32]), FromBytes(if |raw| < 32 then [] else raw[32..]))
  }

  /** The claims of a payload part, if it is an object. */
  ghost predicate Claimed(payload: string, c: Claims, j: Json) {
    exists text :: DecodeText(payload) == Some(text) && j.loadPayload(text) == Some(c)
  }

  ghost predicate Stands(jws: string, c: Claims, pk: nat, j: Json, e: Ecdsa) {
    exists header, payload, raw :: Signed(jws, header, payload, raw, pk, j, e) && Claimed(payload, c, j)
  }

  lemma {:induction false} ThreeParts(jws: string)
    requires |Split(jws, '.')| == 3
    ensures var parts := Split(jws, '.'); jws == parts[0] + "." + parts[1] + "." + parts[2]
  {
    JoinSplit(jws, '.');
    JoinThree(Split(jws, '.'));
  }

  lemma JoinThree(parts: seq<string>)
    requires |parts| == 3
    ensures Join(parts, ".") == parts[0] + "." + parts[1] + "." + parts[2]
  {
    var rest := parts[1..];
    assert rest[0] == parts[1] && rest[1..] == [parts[2]];
    assert Join(rest, ".") == parts[1] + "." + parts[2];
    assert parts[0] + "." + (parts[1] + "." + parts[2]) == parts[0] + "." + parts[1] + "." + parts[2];
  }

  lemma AsciiParts(a: string, b: string)
    ensures Ascii(a + "." + b) <==> Ascii(a) && Ascii(b)
  {
    assert forall i :: 0 <= i < |a| ==> (a + "." + b)[i] == a[i];
    assert forall i :: 0 <= i < |b| ==> (a + "." + b)[|a| + 1 + i] == b[i];
  }

  lemma PartsOf(raw: seq<byte>)
    ensures SignatureParts(raw)
         == (FromBytes(if |raw| < 32 then raw else raw[..32]), FromBytes(if |raw| < 32 then [] else raw[32..]))
  {
    assert raw[..|raw|] == raw && raw[|raw|..] == [];
  }

  lemma BytesVerifyMeans(jws: string, pk: nat, j: Json, e: Ecdsa)
    requires BytesVerify(jws, pk, j, e)
    ensures var parts := Split(jws, '.');
      DecodeBytes(parts[2]).Some? && Signed(jws, parts[0], parts[1], DecodeBytes(parts[2]).value, pk, j, e)
  {
    var parts := Split(jws, '.');
    ThreeParts(jws);
    AsciiParts(parts[0], parts[1]);
    PartsOf(DecodeBytes(parts[2]).value);
    assert DecodeText(parts[0]).Some? && j.loadHeader(DecodeText(parts[0]).value).Some?;
  }

  lemma SignedVerifies(jws: string, header: string, payload: string, raw: seq<byte>, pk: nat, j: Json, e: Ecdsa)
    requires Signed(jws, header, payload, raw, pk, j, e)
    ensures BytesVerify(jws, pk, j, e) && Split(jws, '.')[1] == payload
  {
    var signature :| jws == header + "." + payload + "." + signature && '.' !in signature && DecodeBytes(signature) == Some(raw);
    SplitSigned(header, payload, signature);
    AsciiParts(header, payload);
    PartsOf(raw);
  }

  lemma StandsIs(jws: string, c: Claims, pk: nat, j: Json, e: Ecdsa)
    ensures Stands(jws, c, pk, j, e) <==> BytesVerify(jws, pk, j, e) && Claimed(Split(jws, '.')[1], c, j)
  {
    if Stands(jws, c, pk, j, e) {
      var header, payload, raw :| Signed(jws, header, payload, raw, pk, j, e) && Claimed(payload, c, j);
      SignedVerifies(jws, header, payload, raw, pk, j, e);
    }
    if BytesVerify(jws, pk, j, e) {
      BytesVerifyMeans(jws, pk, j, e);
    }
  }

  /** A token is accepted with a payload exactly if it stands with that payload's claims, none of the six
      missing, and the expiry has not passed. */
  lemma AcceptedExactly(jws: string, pk: nat, p: Payload, j: Json, e: Ecdsa, now: real)
    ensures VerifyDetailed(jws, pk, j, e, now) == V.Accepted(p)
       <==> Stands(jws, ClaimsOf(p), pk, j, e) && p.exp as real >= now
  {
    StandsIs(jws, ClaimsOf(p), pk, j, e);
    if VerifyDetailed(jws, pk, j, e, now) == V.Accepted(p) {
      var text := DecodeText(Split(jws, '.')[1]).value;
      assert j.loadPayload(text).value == ClaimsOf(p);
    }
  }

  /** It has lapsed exactly if it stands and its expiry, zero if it has none, has passed, whatever other
      claims are missing. */
  lemma LapsedExactly(jws: string, pk: nat, j: Json, e: Ecdsa, now: real)
    ensures VerifyDetailed(jws, pk, j, e, now) == V.Lapsed
       <==> exists c :: Stands(jws, c, pk, j, e) && (match c.exp case Some(t) => t as real < now case None => 0.0 < now)
  {
    if VerifyDetailed(jws, pk, j, e, now) == V.Lapsed {
      var c := j.loadPayload(DecodeText(Split(jws, '.')[1]).value).value;
      StandsIs(jws, c, pk, j, e);
    }
    if c :| Stands(jws, c, pk, j, e) && (match c.exp case Some(t) => t as real < now case None => 0.0 < now) {
      StandsIs(jws, c, pk, j, e);
    }
  }

  lemma {:induction false} ByteAt(v: nat, n: nat, i: nat)
    requires i < n
    ensures ToBytes(v, n)[i] == v / Pow256(n - 1 - i) % 256
  {
    if i < n - 1 {
      ByteAt(v / 256, n - 1, i);
      assert ToBytes(v, n)[i] == ToBytes(v / 256, n - 1)[i];
      DivideTwice(v, Pow256(n - 2 - i));
    }
  }

  lemma DivideTwice(v: nat, a: nat)
    requires a > 0
    ensures v / 256 / a == v / (256 * a)
  {
    var q := v / 256 / a;
    assert q * (256 * a) <= v < (q + 1) * (256 * a);
    QuotientIs(v, 256 * a, q);
  }

  lemma Times(a: nat, b: nat, d: nat)
    requires a <= b
    ensures a * d <= b * d
  {}

  lemma QuotientIs(v: nat, d: nat, q: nat)
    requires d > 0 && q * d <= v < (q + 1) * d
    ensures v / d == q
  {
    var r := v / d;
    if r < q {
      Times(r + 1, q, d);
    } else if r > q {
      Times(q + 1, r, d);
    }
  }

  /** Octet for octet: R, then S, most significant octets first. */
  lemma RawOctets(r: nat, s: nat, i: nat)
    requires i < 32
    ensures RawSignature(r, s)[i] == r / Pow256(31 - i) % 256 && RawSignature(r, s)[32 + i] == s / Pow256(31 - i) % 256
  {
    ByteAt(r, 32, i);
    ByteAt(s, 32, i);
  }
}
