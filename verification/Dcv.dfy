/** Domain control validation: placing, verifying and revoking a challenge in a TXT record. */
module Dcv {
  import opened Wrappers
  import opened Text
  import opened Utf8
  import opened DcvWire

  const MAX_RECORDS: nat := 10
  const MAX_TTL: int := 86400

  // ---- verifying against whatever the resolver returns ----

  /** One TXT record: its character-strings, as octets. */
  type Rdata = seq<seq<byte>>

  datatype Query = Query(domain: string, token: string, bndReq: string, now: real)

  /** What one record means for a query. `Raises` is an exception out of the loop. */
  datatype Match = Accepts | Rejects | Lapsed(expiry: string) | Raises

  function Concat(parts: seq<seq<byte>>): string {
    if parts == [] then [] else Decode(parts[0]) + Concat(parts[1..])
  }

  /** The fields of a decoded record, checked in the program's order. Comparing digests refuses text
      that is not ASCII, and comparing an instant with a time without zone is an error. */
  function Judge(fields: map<string, string>, q: Query, iso: Iso): Match {
    var token, expiry := Field(fields, "token"), Field(fields, "expiry");
    if !Ascii(token) || !Ascii(q.token) then Raises
    else if token != q.token then Rejects
    else if expiry == [] then Rejects
    else
      match iso.parse(expiry)
      case Malformed => Rejects
      case Naive => Raises
      case At(t) =>
        if q.now > t then Lapsed(expiry)
        else
          var domain, bnd := Field(fields, "domain"), Field(fields, "bnd-req");
          if domain != [] && !(Ascii(domain) && Ascii(q.domain)) then Raises
          else if domain != [] && domain != q.domain then Rejects
          else if q.bndReq == [] then Accepts
          else if !Ascii(bnd) || !Ascii(q.bndReq) then Raises
          else if bnd != q.bndReq then Rejects
          else Accepts
  }

  predicate Decodes(r: Rdata) {
    forall i :: 0 <= i < |r| ==> WellFormed(r[i])
  }

  function MatchOf(r: Rdata, q: Query, iso: Iso): Match {
    if !Decodes(r) then Raises else Judge(Parse(Concat(r)), q, iso)
  }

  /** What the records at the challenge name come to; `Error` is an exception. */
  datatype Finding = Verified | Expired(expiry: string) | NotFound | Error

  /** The first record that accepts or raises decides; else the first lapsed one is reported. */
  function Outcome(rs: seq<Rdata>, judge: Rdata -> Match): Finding {
    if rs == [] then NotFound
    else
      match judge(rs[0])
      case Accepts => Verified
      case Raises => Error
      case Rejects => Outcome(rs[1..], judge)
      case Lapsed(e) =>
        var rest := Outcome(rs[1..], judge);
        if rest.Verified? || rest.Error? then rest else Expired(e)
  }

  function JudgeFor(q: Query, iso: Iso): Rdata -> Match {
    r => MatchOf(r, q, iso)
  }

  method CheckRecords(answers: seq<Rdata>, q: Query, iso: Iso) returns (found: Finding)
    ensures found == Outcome(answers, JudgeFor(q, iso))
  {
    var judge := JudgeFor(q, iso);
    var expiredMatch: Option<string> := None;
    var i := 0;
    while i < |answers|
      invariant 0 <= i <= |answers|
      invariant Outcome(answers, judge)
        == (var rest := Outcome(answers[i..], judge);
            if rest.Verified? || rest.Error? || expiredMatch.None? then rest else Expired(expiredMatch.value))
    {
      assert answers[i..][0] == answers[i] && answers[i..][1..] == answers[i + 1..];
      var m := judge(answers[i]);
      i := i + 1;
      match m {
        case Accepts => return Verified;
        case Raises => return Error;
        case Lapsed(e) =>
          if expiredMatch.None? {
            expiredMatch := Some(e);
          }
        case Rejects =>
      }
    }
    found := if expiredMatch.Some? then Expired(expiredMatch.value) else NotFound;
  }

  /** Which server is asked: the usual resolver, a given address, or something that is no address. */
  datatype Nameserver = Usual | Address | NotAnAddress

  /** What the resolver returns; `ad` says that it validated the answer. */
  datatype Lookup = NoAnswer | RecordSet(rs: seq<Rdata>, ad: bool)

  datatype Verification = BadNameserver | Unresolved | TooMany | NotValidated | Checked(found: Finding, dnssec: bool)

  /** Validation can be insisted on only where the usual resolver is asked. */
  method Verify(server: Nameserver, requireDnssec: bool, lookup: Lookup, q: Query, iso: Iso) returns (v: Verification)
    ensures v.BadNameserver? <==> server.NotAnAddress?
    ensures v.Unresolved? <==> !server.NotAnAddress? && lookup.NoAnswer?
    ensures v.TooMany? <==> !server.NotAnAddress? && lookup.RecordSet? && |lookup.rs| > 10
    ensures v.NotValidated? <==> server.Usual? && requireDnssec && lookup.RecordSet? && |lookup.rs| <= 10 && !lookup.ad
    ensures v.Checked? ==> v.found == Outcome(lookup.rs, JudgeFor(q, iso)) && (v.dnssec <==> requireDnssec && server.Usual?)
    ensures v.Checked? && v.dnssec ==> lookup.ad
  {
    if server.NotAnAddress? {
      return BadNameserver;
    }
    var strict := requireDnssec;
    if strict && server.Address? {
      strict := false;
    }
    if lookup.NoAnswer? {
      return Unresolved;
    }
    if |lookup.rs| > MAX_RECORDS {
      return TooMany;
    }
    if strict && !lookup.ad {
      return NotValidated;
    }
    var found := CheckRecords(lookup.rs, q, iso);
    v := Checked(found, strict);
  }

  // ---- when a record makes the check raise ----

  /** The token is right and the time not over: the fields bound to come next are looked at. */
  predicate InForce(fields: map<string, string>, q: Query, iso: Iso) {
    && Field(fields, "token") == q.token && Field(fields, "expiry") != []
    && var t := iso.parse(Field(fields, "expiry"));
       t.At? && q.now <= t.seconds
  }

  /** The fields of a record that make the check raise: a token that is not ASCII, in the record or the
      query; under the right token, a time without a zone; and, while it is in force, a domain or an expected
      binding that comes to be compared and is not ASCII on either side. */
  predicate Unreadable(fields: map<string, string>, q: Query, iso: Iso) {
    var domain, bnd := Field(fields, "domain"), Field(fields, "bnd-req");
    || !Ascii(Field(fields, "token")) || !Ascii(q.token)
    || (Field(fields, "token") == q.token && Field(fields, "expiry") != [] && iso.parse(Field(fields, "expiry")).Naive?)
    || (InForce(fields, q, iso) && domain != [] && !(Ascii(domain) && Ascii(q.domain)))
    || (InForce(fields, q, iso) && (domain == [] || domain == q.domain) && q.bndReq != [] && !(Ascii(bnd) && Ascii(q.bndReq)))
  }

  /** A record makes the check raise exactly when its octets are not UTF-8 or its fields are unreadable. */
  lemma RaisesExactly(r: Rdata, q: Query, iso: Iso)
    ensures MatchOf(r, q, iso).Raises? <==> !Decodes(r) || Unreadable(Parse(Concat(r)), q, iso)
  {
    if Decodes(r) {
      JudgeRaises(Parse(Concat(r)), q, iso);
    }
  }

  lemma JudgeRaises(fields: map<string, string>, q: Query, iso: Iso)
    ensures Judge(fields, q, iso).Raises? <==> Unreadable(fields, q, iso)
  {}

  // ---- what else a record comes to ----

  /** The record carries the query's token, and an expiry that is an instant. */
  ghost predicate Carries(fields: map<string, string>, q: Query, iso: Iso, expiry: string, t: real) {
    && Field(fields, "token") == q.token && expiry != [] && Field(fields, "expiry") == expiry && iso.parse(expiry) == At(t)
  }

  ghost predicate Readable(r: Rdata, q: Query, iso: Iso) {
    Decodes(r) && !Unreadable(Parse(Concat(r)), q, iso)
  }

  /** A record is accepted exactly if it can be read, has the token, names no domain or the one asked about
      and, where a binding is expected, has that one, and its expiry is not before now. */
  lemma AcceptedExactly(r: Rdata, q: Query, iso: Iso)
    ensures MatchOf(r, q, iso).Accepts?
       <==> && Readable(r, q, iso)
            && (var fields := Parse(Concat(r));
                && (exists expiry, t :: Carries(fields, q, iso, expiry, t) && q.now <= t)
                && (Field(fields, "domain") == [] || Field(fields, "domain") == q.domain)
                && (q.bndReq == [] || Field(fields, "bnd-req") == q.bndReq))
  {
    RaisesExactly(r, q, iso);
    if Decodes(r) {
      JudgeAccepts(Parse(Concat(r)), q, iso);
    }
  }

  lemma JudgeAccepts(fields: map<string, string>, q: Query, iso: Iso)
    ensures Judge(fields, q, iso).Accepts?
       <==> && !Unreadable(fields, q, iso)
            && (exists expiry, t :: Carries(fields, q, iso, expiry, t) && q.now <= t)
            && (Field(fields, "domain") == [] || Field(fields, "domain") == q.domain)
            && (q.bndReq == [] || Field(fields, "bnd-req") == q.bndReq)
  {
    JudgeRaises(fields, q, iso);
    var expiry := Field(fields, "expiry");
    if Judge(fields, q, iso).Accepts? {
      assert Carries(fields, q, iso, expiry, iso.parse(expiry).seconds);
    }
  }

  /** It has lapsed exactly if it can be read and has the token and an expiry before now, whatever else it
      says; that expiry is what is reported of it. */
  lemma LapsedExactly(r: Rdata, q: Query, iso: Iso, expiry: string)
    ensures MatchOf(r, q, iso) == Lapsed(expiry)
       <==> Readable(r, q, iso) && exists t :: Carries(Parse(Concat(r)), q, iso, expiry, t) && t < q.now
  {
    RaisesExactly(r, q, iso);
    if Decodes(r) {
      JudgeLapses(Parse(Concat(r)), q, iso, expiry);
    }
  }

  lemma JudgeLapses(fields: map<string, string>, q: Query, iso: Iso, expiry: string)
    ensures Judge(fields, q, iso) == Lapsed(expiry)
       <==> !Unreadable(fields, q, iso) && exists t :: Carries(fields, q, iso, expiry, t) && t < q.now
  {
    JudgeRaises(fields, q, iso);
    if Judge(fields, q, iso) == Lapsed(expiry) {
      assert Carries(fields, q, iso, expiry, iso.parse(expiry).seconds);
    }
  }

  // ---- what a record set comes to ----

  /** The record at `i` decides: it accepts or raises and none before it does. */
  ghost predicate Decides(rs: seq<Rdata>, i: nat, judge: Rdata -> Match) {
    && i < |rs| && (judge(rs[i]).Accepts? || judge(rs[i]).Raises?)
    && forall j :: 0 <= j < i ==> !judge(rs[j]).Accepts? && !judge(rs[j]).Raises?
  }

  /** No record decides, and that at `i` is the first that has lapsed. */
  ghost predicate LapsedFirst(rs: seq<Rdata>, i: nat, judge: Rdata -> Match) {
    && i < |rs| && judge(rs[i]).Lapsed?
    && (forall j :: 0 <= j < |rs| ==> !judge(rs[j]).Accepts? && !judge(rs[j]).Raises?)
    && forall j :: 0 <= j < i ==> !judge(rs[j]).Lapsed?
  }

  lemma {:induction false} FirstDecides(rs: seq<Rdata>, judge: Rdata -> Match, i: nat)
    requires Decides(rs, i, judge)
    ensures Outcome(rs, judge) == if judge(rs[i]).Accepts? then Verified else Error
  {
    if i > 0 {
      assert rs[1..][i - 1] == rs[i] && forall j :: 0 <= j < i - 1 ==> rs[1..][j] == rs[j + 1];
      assert Decides(rs[1..], i - 1, judge);
      FirstDecides(rs[1..], judge, i - 1);
    }
  }

  lemma {:induction false} FirstLapsed(rs: seq<Rdata>, judge: Rdata -> Match, i: nat)
    requires LapsedFirst(rs, i, judge)
    ensures Outcome(rs, judge) == Expired(judge(rs[i]).expiry)
  {
    assert forall j :: 0 <= j < |rs| - 1 ==> rs[1..][j] == rs[j + 1];
    if i > 0 {
      assert LapsedFirst(rs[1..], i - 1, judge);
      FirstLapsed(rs[1..], judge, i - 1);
    } else {
      NoneDecides(rs[1..], judge);
    }
  }

  lemma {:induction false} NoneDecides(rs: seq<Rdata>, judge: Rdata -> Match)
    requires forall j :: 0 <= j < |rs| ==> !judge(rs[j]).Accepts? && !judge(rs[j]).Raises?
    ensures !Outcome(rs, judge).Verified? && !Outcome(rs, judge).Error?
    ensures (forall j :: 0 <= j < |rs| ==> judge(rs[j]).Rejects?) ==> Outcome(rs, judge) == NotFound
  {
    if rs != [] {
      assert forall j :: 0 <= j < |rs| - 1 ==> rs[1..][j] == rs[j + 1];
      NoneDecides(rs[1..], judge);
    }
  }

  /** What the check of a record set comes to: the first record that accepts or raises decides; without one
      the first lapsed record's expiry is reported, and without that nothing is found. */
  lemma OutcomeExactly(rs: seq<Rdata>, judge: Rdata -> Match)
    ensures || (exists i: nat :: Decides(rs, i, judge) && Outcome(rs, judge) == if judge(rs[i]).Accepts? then Verified else Error)
            || (exists i: nat :: LapsedFirst(rs, i, judge) && Outcome(rs, judge) == Expired(judge(rs[i]).expiry))
            || ((forall j :: 0 <= j < |rs| ==> judge(rs[j]).Rejects?) && Outcome(rs, judge) == NotFound)
  {
    if j :| 0 <= j < |rs| && (judge(rs[j]).Accepts? || judge(rs[j]).Raises?) {
      var i := FirstDeciding(rs, judge, j);
      FirstDecides(rs, judge, i);
    } else if j :| 0 <= j < |rs| && judge(rs[j]).Lapsed? {
      var i := FirstLapsing(rs, judge, j);
      FirstLapsed(rs, judge, i);
    } else {
      NoneDecides(rs, judge);
    }
  }

  lemma {:induction false} FirstDeciding(rs: seq<Rdata>, judge: Rdata -> Match, j: nat) returns (i: nat)
    requires j < |rs| && (judge(rs[j]).Accepts? || judge(rs[j]).Raises?)
    ensures Decides(rs, i, judge)
  {
    i := j;
    if k :| 0 <= k < j && (judge(rs[k]).Accepts? || judge(rs[k]).Raises?) {
      i := FirstDeciding(rs, judge, k);
    }
  }

  lemma {:induction false} FirstLapsing(rs: seq<Rdata>, judge: Rdata -> Match, j: nat) returns (i: nat)
    requires j < |rs| && judge(rs[j]).Lapsed?
    requires forall j :: 0 <= j < |rs| ==> !judge(rs[j]).Accepts? && !judge(rs[j]).Raises?
    ensures LapsedFirst(rs, i, judge)
  {
    i := j;
    if k :| 0 <= k < j && judge(rs[k]).Lapsed? {
      i := FirstLapsing(rs, judge, k);
    }
  }

  /** Whether a record set answers a query, or breaks it, irrespective of order. */
  ghost predicate SomeAccepts(rs: seq<Rdata>, judge: Rdata -> Match) {
    exists r :: r in rs && judge(r).Accepts?
  }

  ghost predicate SomeRaises(rs: seq<Rdata>, judge: Rdata -> Match) {
    exists r :: r in rs && judge(r).Raises?
  }

  lemma {:induction false} OutcomeMeans(rs: seq<Rdata>, judge: Rdata -> Match)
    ensures Outcome(rs, judge).Verified? ==> SomeAccepts(rs, judge)
    ensures Outcome(rs, judge).Error? ==> SomeRaises(rs, judge)
    ensures SomeAccepts(rs, judge) || SomeRaises(rs, judge) ==> Outcome(rs, judge).Verified? || Outcome(rs, judge).Error?
  {
    if rs != [] {
      OutcomeMeans(rs[1..], judge);
      assert forall r :: r in rs <==> r == rs[0] || r in rs[1..];
    }
  }

  lemma SameRecords(a: seq<Rdata>, b: seq<Rdata>, judge: Rdata -> Match)
    requires multiset(a) == multiset(b)
    ensures SomeAccepts(a, judge) ==> SomeAccepts(b, judge)
    ensures SomeRaises(a, judge) ==> SomeRaises(b, judge)
  {
    forall r | r in a ensures r in b {
      assert r in multiset(b);
    }
  }

  lemma ToFront(rs: seq<Rdata>, r: Rdata) returns (front: seq<Rdata>)
    requires r in rs
    ensures multiset(front) == multiset(rs) && front != [] && front[0] == r
  {
    var i :| 0 <= i < |rs| && rs[i] == r;
    front := [r] + (rs[..i] + rs[i + 1..]);
    assert rs == rs[..i] + ([r] + rs[i + 1..]);
  }

  /** Two orders of one record set get the same answer. */
  ghost predicate SameAnswer(a: seq<Rdata>, b: seq<Rdata>, judge: Rdata -> Match) {
    && Outcome(a, judge).Verified? == Outcome(b, judge).Verified?
    && Outcome(a, judge).Error? == Outcome(b, judge).Error?
  }

  lemma OrderIndependent(a: seq<Rdata>, b: seq<Rdata>, judge: Rdata -> Match)
    requires multiset(a) == multiset(b) && !(SomeAccepts(a, judge) && SomeRaises(a, judge))
    ensures SameAnswer(a, b, judge)
  {
    SameRecords(a, b, judge);
    SameRecords(b, a, judge);
    OutcomeMeans(a, judge);
    OutcomeMeans(b, judge);
  }

  /** The order of a record set matters exactly when one of its records would verify and another makes
      the check raise: octets that are not UTF-8, text that is not ASCII, or a time without a zone. */
  lemma OrderMattersExactly(rs: seq<Rdata>, judge: Rdata -> Match)
    ensures (forall a, b :: multiset(a) == multiset(rs) && multiset(b) == multiset(rs) ==> SameAnswer(a, b, judge))
       <==> !(SomeAccepts(rs, judge) && SomeRaises(rs, judge))
  {
    if SomeAccepts(rs, judge) && SomeRaises(rs, judge) {
      var r :| r in rs && judge(r).Accepts?;
      var s :| s in rs && judge(s).Raises?;
      var a := ToFront(rs, r);
      var b := ToFront(rs, s);
      assert !SameAnswer(a, b, judge);
    } else {
      forall a, b | multiset(a) == multiset(rs) && multiset(b) == multiset(rs) ensures SameAnswer(a, b, judge) {
        SameRecords(a, rs, judge);
        OrderIndependent(a, b, judge);
      }
    }
  }

  // ---- one record ----

  predicate IsToken(t: string) {
    |t| == 32 && forall i :: 0 <= i < |t| ==> 'a' <= t[i] <= 'z' || '2' <= t[i] <= '7'
  }

  /** A validated domain name. */
  predicate IsDomain(d: string) {
    d != [] && forall i :: 0 <= i < |d| ==> 'a' <= d[i] <= 'z' || '0' <= d[i] <= '9' || d[i] == '-' || d[i] == '.'
  }

  /** A challenge that was placed; `expiry` is to the second. */
  datatype Challenge = Challenge(token: string, bndReq: string, expiry: int)

  predicate Live(c: Option<Challenge>, token: string, now: real) {
    c.Some? && c.value.token == token && now <= c.value.expiry as real
  }

  predicate Accepted(c: Option<Challenge>, token: string, bndReq: string, now: real) {
    Live(c, token, now) && (bndReq != [] ==> c.value.bndReq == bndReq)
  }

  function TxtOf(c: Challenge, domain: string, iso: Iso): string {
    BuildTxt(c.token, domain, c.bndReq, iso.format(c.expiry))
  }

  /** The record as the resolver returns it. */
  function RecordOf(c: Challenge, domain: string, iso: Iso): Rdata {
    [Encode(TxtOf(c, domain, iso))]
  }

  predicate GoodBinding(bndReq: string) {
    bndReq == [] || (Solid(bndReq) && Ascii(bndReq))
  }

  lemma SaidFields(token: string, domain: string, bndReq: string, expiry: string)
    requires domain != []
    ensures var fields := Said(token, domain, bndReq, expiry);
      && Field(fields, "token") == token && Field(fields, "domain") == domain
      && Field(fields, "bnd-req") == bndReq && Field(fields, "expiry") == expiry
  {}

  lemma JudgeReads(fields: map<string, string>, c: Challenge, domain: string, q: Query, iso: Iso)
    requires Ascii(c.token) && Ascii(domain) && Ascii(c.bndReq) && q.domain == domain
    requires Field(fields, "token") == c.token && Field(fields, "domain") == domain && Field(fields, "bnd-req") == c.bndReq
    requires Field(fields, "expiry") != [] && iso.parse(Field(fields, "expiry")) == At(c.expiry as real)
    ensures Judge(fields, q, iso).Accepts? <==> Accepted(Some(c), q.token, q.bndReq, q.now)
  {}

  lemma TokenIsSolid(t: string)
    requires IsToken(t)
    ensures Solid(t) && Ascii(t)
  {}

  lemma DomainIsSolid(d: string)
    requires IsDomain(d)
    ensures Solid(d) && Ascii(d)
  {}

  lemma FormatsWell(iso: Iso, t: int)
    requires IsoLaws(iso)
    ensures Solid(iso.format(t)) && iso.parse(iso.format(t)) == At(t as real)
  {}

  lemma ChallengeReadsBack(c: Challenge, domain: string, iso: Iso)
    requires IsoLaws(iso) && IsToken(c.token) && IsDomain(domain) && GoodBinding(c.bndReq)
    ensures Parse(TxtOf(c, domain, iso)) == Said(c.token, domain, c.bndReq, iso.format(c.expiry))
  {
    TokenIsSolid(c.token);
    DomainIsSolid(domain);
    FormatsWell(iso, c.expiry);
    ReadsBack(c.token, domain, c.bndReq, iso.format(c.expiry));
  }

  /** The strings of a record are read one after the other. */
  lemma {:induction false} ConcatAppend(a: seq<seq<byte>>, b: seq<byte>)
    ensures Concat(a + [b]) == Concat(a) + Decode(b)
  {
    if a == [] {
      ConcatOne(b);
      assert a + [b] == [b] && [] + Decode(b) == Decode(b);
    } else {
      assert (a + [b])[0] == a[0] && (a + [b])[1..] == a[1..] + [b];
      ConcatAppend(a[1..], b);
      Regroup(Decode(a[0]), Concat(a[1..]), Decode(b));
    }
  }

  lemma ConcatOne(b: seq<byte>)
    ensures Concat([b]) == Decode(b)
  {
    assert [b][1..] == [];
    assert Decode(b) + [] == Decode(b);
  }

  lemma RecordReads(txt: string, q: Query, iso: Iso)
    ensures MatchOf([Encode(txt)], q, iso) == Judge(Parse(txt), q, iso)
  {
    DecodeEncode(txt);
    ConcatOne(Encode(txt));
  }

  /** What a placed challenge means for a query on its domain. */
  lemma PlacedMatches(c: Challenge, domain: string, q: Query, iso: Iso)
    requires IsoLaws(iso) && IsToken(c.token) && IsDomain(domain) && GoodBinding(c.bndReq) && q.domain == domain
    ensures MatchOf(RecordOf(c, domain, iso), q, iso).Accepts? <==> Accepted(Some(c), q.token, q.bndReq, q.now)
  {
    RecordReads(TxtOf(c, domain, iso), q, iso);
    ChallengeReadsBack(c, domain, iso);
    TokenIsSolid(c.token);
    DomainIsSolid(domain);
    FormatsWell(iso, c.expiry);
    SaidFields(c.token, domain, c.bndReq, iso.format(c.expiry));
    JudgeReads(Said(c.token, domain, c.bndReq, iso.format(c.expiry)), c, domain, q, iso);
  }

  lemma AcceptedBinding(fields: map<string, string>, q: Query, iso: Iso)
    requires Judge(fields, q, iso).Accepts? && q.bndReq != []
    ensures Field(fields, "bnd-req") == q.bndReq && Ascii(q.bndReq)
  {}

  lemma ReadBindingIsSolid(txt: string)
    ensures Field(Parse(txt), "bnd-req") == [] || Solid(Field(Parse(txt), "bnd-req"))
  {
    ParsedValuesAreSolid(txt, "bnd-req");
  }

  /** Queries on the domain get the documented answer. */
  ghost predicate Honoured(c: Challenge, domain: string, iso: Iso) {
    forall q: Query :: q.domain == domain ==>
      (MatchOf(RecordOf(c, domain, iso), q, iso).Accepts? <==> Accepted(Some(c), q.token, q.bndReq, q.now))
  }

  lemma BadBindingMisses(c: Challenge, domain: string, q: Query, iso: Iso)
    requires !GoodBinding(c.bndReq) && q.bndReq == c.bndReq
    ensures !MatchOf(RecordOf(c, domain, iso), q, iso).Accepts?
  {
    var txt := TxtOf(c, domain, iso);
    RecordReads(txt, q, iso);
    ReadBindingIsSolid(txt);
    if Judge(Parse(txt), q, iso).Accepts? {
      AcceptedBinding(Parse(txt), q, iso);
      assert false;
    }
  }

  /** A placed challenge is honoured as documented exactly when its binding holds no white space and
      nothing outside ASCII. */
  lemma BindingHonouredExactly(c: Challenge, domain: string, iso: Iso)
    requires IsoLaws(iso) && IsToken(c.token) && IsDomain(domain)
    ensures Honoured(c, domain, iso) <==> GoodBinding(c.bndReq)
  {
    if GoodBinding(c.bndReq) {
      forall q: Query | q.domain == domain
        ensures MatchOf(RecordOf(c, domain, iso), q, iso).Accepts? <==> Accepted(Some(c), q.token, q.bndReq, q.now)
      {
        PlacedMatches(c, domain, q, iso);
      }
    } else {
      var q := Query(domain, c.token, c.bndReq, c.expiry as real);
      BadBindingMisses(c, domain, q, iso);
      assert Accepted(Some(c), q.token, q.bndReq, q.now);
    }
  }

  // ---- a record set whose order matters ----

  /** One octet that begins no character. */
  const GARBLED: Rdata := [[0xFF]]

  lemma GarbledRaises(q: Query, iso: Iso)
    ensures MatchOf(GARBLED, q, iso).Raises?
  {
    assert !WellFormed(GARBLED[0]);
  }

  lemma TwoRecords(good: Rdata, bad: Rdata, judge: Rdata -> Match)
    requires judge(good).Accepts? && judge(bad).Raises?
    ensures Outcome([good, bad], judge) == Verified && Outcome([bad, good], judge) == Error
  {}

  /** A challenge in force beside a record that is not UTF-8: verified if the resolver lists it first, an
      exception if second. */
  lemma OrderExample(c: Challenge, domain: string, iso: Iso)
    requires IsoLaws(iso) && IsToken(c.token) && IsDomain(domain) && c.bndReq == []
    ensures var q, good := Query(domain, c.token, [], c.expiry as real), RecordOf(c, domain, iso);
      Outcome([good, GARBLED], JudgeFor(q, iso)) == Verified && Outcome([GARBLED, good], JudgeFor(q, iso)) == Error
  {
    var q, good := Query(domain, c.token, [], c.expiry as real), RecordOf(c, domain, iso);
    PlacedMatches(c, domain, q, iso);
    GarbledRaises(q, iso);
    TwoRecords(good, GARBLED, JudgeFor(q, iso));
  }

  // ---- whole runs ----

  datatype Action =
    | Place(domain: string, token: string, bndReq: string, seconds: int, now: real)
    | Revoke(domain: string, token: string, now: real)

  predicate Placeable(token: string, seconds: int) {
    IsToken(token) && 30 <= seconds <= MAX_TTL
  }

  function Placed(a: Action): Challenge
    requires a.Place?
  {
    Challenge(a.token, a.bndReq, (a.now + a.seconds as real).Floor)
  }

  /** The challenge of a domain after the actions: the last one placed, unless it was revoked while it
      was live. */
  function Current(actions: seq<Action>, domain: string): Option<Challenge> {
    if actions == [] then None
    else
      var before, last := Current(actions[..|actions| - 1], domain), actions[|actions| - 1];
      if last.domain != domain then before
      else if last.Place? then (if Placeable(last.token, last.seconds) then Some(Placed(last)) else before)
      else if Live(before, last.token, last.now) then None
      else before
  }

  /** Whether the record of a challenge answers a query. */
  predicate Answers(c: Option<Challenge>, q: Query, iso: Iso) {
    c.Some? && MatchOf(RecordOf(c.value, q.domain, iso), q, iso).Accepts?
  }

  /** The challenge whose record the zone holds, whatever its binding: revoking goes by what the record
      answers. */
  function Held(actions: seq<Action>, domain: string, iso: Iso): Option<Challenge> {
    if actions == [] then None
    else
      var before, last := Held(actions[..|actions| - 1], domain, iso), actions[|actions| - 1];
      if last.domain != domain then before
      else if last.Place? then (if Placeable(last.token, last.seconds) then Some(Placed(last)) else before)
      else if IsToken(last.token) && Answers(before, Query(domain, last.token, [], last.now), iso) then None
      else before
  }

  /** Every binding placed for a domain survives its record. */
  predicate AllBound(actions: seq<Action>, domain: string) {
    forall i :: 0 <= i < |actions| && actions[i].Place? && actions[i].domain == domain ==> GoodBinding(actions[i].bndReq)
  }

  /** With good bindings the zone holds what the documentation says it should. */
  lemma {:induction false} HeldIsCurrent(actions: seq<Action>, domain: string, iso: Iso)
    requires IsoLaws(iso) && IsDomain(domain) && AllBound(actions, domain)
    ensures Held(actions, domain, iso) == Current(actions, domain)
    ensures var c := Current(actions, domain); c.Some? ==> IsToken(c.value.token) && GoodBinding(c.value.bndReq)
  {
    if actions != [] {
      var front, last := actions[..|actions| - 1], actions[|actions| - 1];
      HeldIsCurrent(front, domain, iso);
      var before := Current(front, domain);
      if last.domain == domain && last.Revoke? && before.Some? {
        PlacedMatches(before.value, domain, Query(domain, last.token, [], last.now), iso);
      }
    }
  }

  lemma OutcomeOfOne(r: Rdata, judge: Rdata -> Match)
    ensures Outcome([r], judge).Verified? <==> judge(r).Accepts?
    ensures Outcome([r], judge).Error? <==> judge(r).Raises?
  {
    assert [r][1..] == [];
  }

  lemma HeldAfter(actions: seq<Action>, a: Action, domain: string, iso: Iso)
    ensures Held(actions + [a], domain, iso)
      == if a.domain != domain then Held(actions, domain, iso)
         else if a.Place? then (if Placeable(a.token, a.seconds) then Some(Placed(a)) else Held(actions, domain, iso))
         else if IsToken(a.token) && Answers(Held(actions, domain, iso), Query(domain, a.token, [], a.now), iso) then None
         else Held(actions, domain, iso)
  {
    assert (actions + [a])[..|actions|] == actions;
  }

  /** Refused with an exception, deleted, or left alone; or the check itself raised. */
  datatype Revocation = Refused | Removed | Kept | Raised

  /** The zone has the record of the challenge it should hold for a domain, and none otherwise. */
  ghost predicate HoldsIn(txt: map<string, string>, actions: seq<Action>, domain: string, iso: Iso) {
    var c := Held(actions, domain, iso);
    && (domain in txt <==> c.Some?)
    && (c.Some? ==> txt[domain] == TxtOf(c.value, domain, iso))
  }

  lemma RevokeHolds(txt: map<string, string>, actions: seq<Action>, a: Action, removed: bool, d: string, iso: Iso)
    requires a.Revoke? && HoldsIn(txt, actions, d, iso)
    requires removed <==> IsToken(a.token) && Answers(Held(actions, a.domain, iso), Query(a.domain, a.token, [], a.now), iso)
    ensures HoldsIn(if removed then txt - {a.domain} else txt, actions + [a], d, iso)
  {
    HeldAfter(actions, a, d, iso);
  }

  lemma PlaceHolds(txt: map<string, string>, actions: seq<Action>, a: Action, d: string, iso: Iso)
    requires a.Place? && HoldsIn(txt, actions, d, iso)
    ensures HoldsIn(if Placeable(a.token, a.seconds) then txt[a.domain := TxtOf(Placed(a), a.domain, iso)] else txt,
                    actions + [a], d, iso)
  {
    HeldAfter(actions, a, d, iso);
  }

  class ChallengeZone {
    const iso: Iso
    /** The challenge record of each domain; writing replaces it. */
    var txt: map<string, string>
    ghost var actions: seq<Action>

    ghost predicate Holds(domain: string)
      reads this
    {
      HoldsIn(txt, actions, domain, iso)
    }

    ghost predicate Valid()
      reads this
    {
      IsoLaws(iso) && forall d :: Holds(d)
    }

    constructor (iso: Iso)
      requires IsoLaws(iso)
      ensures Valid() && actions == [] && this.iso == iso
    {
      this.iso, txt, actions := iso, map[], [];
    }

    /** A challenge is refused for a malformed token or an unreasonable lifetime, else written. */
    method PlaceChallenge(domain: string, token: string, bndReq: string, seconds: int, now: real) returns (ok: bool)
      requires Valid() && IsDomain(domain)
      modifies this
      ensures Valid() && ok == (IsToken(token) && 30 <= seconds <= 86400)
      ensures actions == old(actions) + [Place(domain, token, bndReq, seconds, now)]
    {
      ghost var a := Place(domain, token, bndReq, seconds, now);
      ok := Placeable(token, seconds);
      actions := actions + [a];
      if ok {
        var expiry := (now + seconds as real).Floor;
        txt := txt[domain := BuildTxt(token, domain, bndReq, iso.format(expiry))];
      }
      forall d ensures Holds(d) {
        assert old(Holds(d));
        PlaceHolds(old(txt), old(actions), a, d, iso);
      }
    }

    /** Verification succeeds exactly when the record the zone holds answers the query; that is, as long
        as every binding placed was a good one, exactly when the domain's current challenge carries the
        token, its binding is the expected one if one is expected, and it has not expired. */
    method VerifyChallenge(domain: string, token: string, bndReq: string, now: real) returns (v: Verification)
      requires Valid() && IsDomain(domain)
      ensures v == Checked(Verified, false) <==> Answers(Held(actions, domain, iso), Query(domain, token, bndReq, now), iso)
      ensures AllBound(actions, domain) ==>
        (v == Checked(Verified, false) <==> Accepted(Current(actions, domain), token, bndReq, now))
      ensures v == Unresolved <==> domain !in txt
      ensures !v.BadNameserver? && !v.TooMany? && !v.NotValidated? && (v.Checked? ==> !v.dnssec)
    {
      assert Holds(domain);
      var q := Query(domain, token, bndReq, now);
      var lookup := if domain in txt then RecordSet([[Encode(txt[domain])]], false) else NoAnswer;
      v := Verify(Usual, false, lookup, q, iso);
      if domain in txt {
        OutcomeOfOne(lookup.rs[0], JudgeFor(q, iso));
      }
      if AllBound(actions, domain) {
        HeldIsCurrent(actions, domain, iso);
        if domain in txt {
          PlacedMatches(Current(actions, domain).value, domain, q, iso);
        }
      }
    }

    /** What revoking comes to, before anything is deleted. */
    method CheckRevocation(domain: string, token: string, now: real) returns (r: Revocation)
      requires Valid() && IsDomain(domain)
      ensures r == Refused <==> !IsToken(token)
      ensures r == Removed <==> IsToken(token) && Answers(Held(actions, domain, iso), Query(domain, token, [], now), iso)
      ensures AllBound(actions, domain) ==> (r == Removed <==> Live(Current(actions, domain), token, now))
    {
      RevokesLive(actions, domain, token, now, iso);
      if !IsToken(token) {
        return Refused;
      }
      var v := VerifyChallenge(domain, token, [], now);
      r := if v.Checked? && v.found.Verified? then Removed else if v.Checked? && v.found.Error? then Raised else Kept;
    }

    /** A malformed token is refused; otherwise the record is deleted exactly when the token alone
        currently verifies. */
    method RevokeChallenge(domain: string, token: string, now: real) returns (r: Revocation)
      requires Valid() && IsDomain(domain)
      modifies this
      ensures Valid() && actions == old(actions) + [Revoke(domain, token, now)]
      ensures r == Refused <==> !IsToken(token)
      ensures r == Removed <==> IsToken(token) && Answers(Held(old(actions), domain, iso), Query(domain, token, [], now), iso)
      ensures AllBound(old(actions), domain) ==> (r == Removed <==> Live(Current(old(actions), domain), token, now))
      ensures txt == if r == Removed then old(txt) - {domain} else old(txt)
    {
      ghost var a := Revoke(domain, token, now);
      r := CheckRevocation(domain, token, now);
      actions := actions + [a];
      if r == Removed {
        txt := txt - {domain};
      }
      forall d ensures Holds(d) {
        assert old(Holds(d));
        RevokeHolds(old(txt), old(actions), a, r == Removed, d, iso);
      }
    }
  }

  /** Under good bindings a token that is not one is never live. */
  lemma RevokesLive(actions: seq<Action>, domain: string, token: string, now: real, iso: Iso)
    requires IsoLaws(iso) && IsDomain(domain)
    ensures AllBound(actions, domain) && Live(Current(actions, domain), token, now) ==> IsToken(token)
  {
    if AllBound(actions, domain) {
      HeldIsCurrent(actions, domain, iso);
    }
  }
}
