/** Stamping discovered records with a signature status, from concurrent tasks under one time budget. */
module SignatureStatus {
  import opened Wrappers
  import opened Text
  import V = Verdict
  import Jws

  datatype Status = Verified | VerifiedEndpointOnly | Invalid | Unbound | Expired | NoKey | NotSigned | NotChecked

  /** The parts of an agent record that signature verification reads and writes. `digest` is the
      canonical digest of the record's own parameters, `declared` the algorithm its signature names. */
  datatype Record = Record(
    sig: Option<string>, fqdn: string, target: string, port: int, alpn: string, digest: string, declared: Option<string>,
    verified: Option<bool>, status: Option<Status>, coversParams: bool, expiresAt: Option<int>, algorithm: Option<string>)

  /** What verifying a record's signature came to: a verdict, or an exception. */
  datatype Reply = Returned(verdict: V.Verdict<Jws.Payload>) | Raised

  predicate DnsNameEq(a: string, b: string) {
    Lower(RStripDot(a)) == Lower(RStripDot(b))
  }

  /** The signed payload describes this endpoint. */
  predicate EndpointMatches(r: Record, p: Jws.Payload) {
    DnsNameEq(p.fqdn, r.fqdn) && DnsNameEq(p.target, r.target) && p.port == r.port && p.alpn == r.alpn
  }

  /** The constant-time comparison refuses text that is not ASCII. */
  predicate CompareRaises(r: Record, p: Jws.Payload) {
    EndpointMatches(r, p) && p.svcb.Some? && !(Ascii(p.svcb.value) && Ascii(r.digest))
  }

  /** The payload describes this record: its endpoint, and its parameters if it speaks of them. */
  predicate Binds(r: Record, p: Jws.Payload) {
    EndpointMatches(r, p) && (p.svcb.Some? ==> p.svcb.value == r.digest)
  }

  /** The record once its verification has completed. */
  function Stamped(r: Record, reply: Reply): Record {
    match reply
    case Raised => Unlearned(r)
    case Returned(verdict) =>
      match verdict
      case NoKey => Unlearned(r.(coversParams := false))
      case Invalid => Rejected(r, Invalid)
      case Expired => Rejected(r, Expired)
      case Verified(p) =>
        if CompareRaises(r, p) then Unlearned(r.(coversParams := false))
        else if !Binds(r, p) then Rejected(r, Unbound)
        else
          r.(coversParams := p.svcb.Some?, verified := Some(true), expiresAt := Some(p.exp), algorithm := r.declared,
             status := Some(if p.svcb.Some? then Status.Verified else VerifiedEndpointOnly))
  }

  function Unlearned(r: Record): Record {
    r.(verified := None, status := Some(NoKey), algorithm := None)
  }

  function Rejected(r: Record, status: Status): Record {
    r.(coversParams := false, verified := Some(false), status := Some(status), algorithm := None)
  }

  /** The endpoint, letter case and a final dot of names aside. */
  predicate SameEndpoint(r: Record, p: Jws.Payload) {
    && Lower(RStripDot(p.fqdn)) == Lower(RStripDot(r.fqdn)) && Lower(RStripDot(p.target)) == Lower(RStripDot(r.target))
    && p.port == r.port && p.alpn == r.alpn
  }

  /** What a verified payload says about a record: nothing if its digest cannot be compared, that it is
      another record's, or that it is this one's. */
  lemma VerifiedStamp(r: Record, p: Jws.Payload)
    ensures var s := Stamped(r, Returned(V.Verified(p)));
      if SameEndpoint(r, p) && p.svcb.Some? && !(Ascii(p.svcb.value) && Ascii(r.digest)) then
        s == r.(verified := None, status := Some(NoKey), coversParams := false, algorithm := None)
      else if SameEndpoint(r, p) && (p.svcb.None? || p.svcb == Some(r.digest)) then
        s == r.(verified := Some(true), status := Some(if p.svcb.Some? then Status.Verified else VerifiedEndpointOnly),
                coversParams := p.svcb.Some?, expiresAt := Some(p.exp), algorithm := r.declared)
      else
        s == r.(verified := Some(false), status := Some(Unbound), coversParams := false, algorithm := None)
  {}

  /** And what the other answers say: a failure is no verdict, a lapsed or bad signature is one. */
  lemma OtherStamps(r: Record)
    ensures Stamped(r, Raised) == r.(verified := None, status := Some(NoKey), algorithm := None)
    ensures Stamped(r, Returned(V.NoKey)) == r.(verified := None, status := Some(NoKey), coversParams := false, algorithm := None)
    ensures Stamped(r, Returned(V.Invalid))
         == r.(verified := Some(false), status := Some(Invalid), coversParams := false, algorithm := None)
    ensures Stamped(r, Returned(V.Expired))
         == r.(verified := Some(false), status := Some(Expired), coversParams := false, algorithm := None)
  {}

  class AgentRecord {
    const sig: Option<string>
    const fqdn: string
    const target: string
    const port: int
    const alpn: string
    const digest: string
    const declared: Option<string>
    var verified: Option<bool>
    var status: Option<Status>
    var coversParams: bool
    var expiresAt: Option<int>
    var algorithm: Option<string>

    function State(): Record
      reads this
    {
      Record(sig, fqdn, target, port, alpn, digest, declared, verified, status, coversParams, expiresAt, algorithm)
    }

    /** Everything after the await, in program order. */
    method Stamp(reply: Reply)
      modifies this
      ensures State() == Stamped(old(State()), reply)
    {
      if reply.Raised? {
        verified, status, algorithm := None, Some(NoKey), None;
        return;
      }
      var verdict := reply.verdict;
      var isValid := verdict.Verified?;
      var newStatus := match verdict
        case Verified(_) => Status.Verified
        case Expired => Status.Expired
        case Invalid => Status.Invalid
        case NoKey => Status.NoKey;
      coversParams := false;
      var payloadMatches := isValid && EndpointMatches(State(), verdict.payload);
      if payloadMatches && verdict.payload.svcb.Some? {
        if CompareRaises(State(), verdict.payload) {
          verified, status, algorithm := None, Some(NoKey), None;
          return;
        }
        if verdict.payload.svcb.value != digest {
          payloadMatches := false;
        } else {
          coversParams := true;
        }
      } else if payloadMatches {
        newStatus := VerifiedEndpointOnly;
      }
      if newStatus.NoKey? {
        verified := None;
      } else if isValid && !payloadMatches {
        verified, newStatus := Some(false), Unbound;
      } else {
        verified := Some(payloadMatches);
      }
      status := Some(newStatus);
      if payloadMatches {
        expiresAt := Some(verdict.payload.exp);
      }
      algorithm := if payloadMatches then declared else None;
    }
  }

  // ---- concurrent tasks ----

  /** One task for each record that carries a signature. */
  datatype Task = NoTask | Pending | Finished(reply: Reply) | Cancelled

  datatype System = System(records: seq<Record>, tasks: seq<Task>, over: bool)

  /** A task finishes, or the budget runs out. Between its await and its end a task does not yield. */
  datatype Event = Finish(i: nat, reply: Reply) | Timeout

  predicate CarriesSig(r: Record) {
    r.sig.Some? && r.sig.value != []
  }

  /** Before the tasks start: records without a signature say so. */
  function Marked(r: Record): Record {
    if r.status.None? && r.sig.None? then r.(status := Some(NotSigned)) else r
  }

  function Start(records: seq<Record>): System {
    System(
      seq(|records|, i requires 0 <= i < |records| => Marked(records[i])),
      seq(|records|, i requires 0 <= i < |records| => if CarriesSig(records[i]) then Pending else NoTask),
      false)
  }

  predicate Done(s: System) {
    s.over || forall i :: 0 <= i < |s.tasks| ==> !s.tasks[i].Pending?
  }

  function NotCheckedIfUnset(r: Record): Record {
    if CarriesSig(r) && r.status.None? then r.(status := Some(NotChecked)) else r
  }

  /** The budget is over: what is pending is cancelled, and then every signed record without a status
      gets one. */
  function OnTimeout(s: System): System {
    if forall i :: 0 <= i < |s.tasks| ==> !s.tasks[i].Pending? then s.(over := true)
    else
      System(
        seq(|s.records|, i requires 0 <= i < |s.records| => NotCheckedIfUnset(s.records[i])),
        seq(|s.tasks|, i requires 0 <= i < |s.tasks| => if s.tasks[i].Pending? then Cancelled else s.tasks[i]),
        true)
  }

  function Step(s: System, e: Event): System
    requires |s.tasks| == |s.records|
    ensures |Step(s, e).tasks| == |Step(s, e).records| == |s.records|
  {
    if s.over then s
    else
      match e
      case Finish(i, reply) =>
        if i < |s.tasks| && s.tasks[i].Pending?
        then s.(records := s.records[i := Stamped(s.records[i], reply)], tasks := s.tasks[i := Finished(reply)])
        else s
      case Timeout => OnTimeout(s)
  }

  function Run(s: System, es: seq<Event>): System
    requires |s.tasks| == |s.records|
    ensures |Run(s, es).tasks| == |Run(s, es).records| == |s.records|
    decreases |es|
  {
    if es == [] then s else Run(Step(s, es[0]), es[1..])
  }

  // ---- whatever the interleaving ----

  /** A record that nothing has been stamped on. */
  predicate Unset(r: Record) {
    r.verified.None? && r.status.None? && !r.coversParams && r.algorithm.None?
  }

  /** A record's end state as a function of its own task alone. */
  function Outcome(r: Record, t: Task): Record {
    match t
    case NoTask => Marked(r)
    case Pending => Marked(r)
    case Finished(reply) => Stamped(Marked(r), reply)
    case Cancelled => r.(status := Some(NotChecked))
  }

  ghost predicate Tracks(initial: seq<Record>, s: System) {
    && |s.records| == |s.tasks| == |initial|
    && forall i :: 0 <= i < |initial| ==>
         && s.records[i] == Outcome(initial[i], s.tasks[i])
         && (s.tasks[i].NoTask? <==> !CarriesSig(initial[i]))
         && (s.tasks[i].Cancelled? ==> s.over)
  }

  lemma StampKeepsSig(r: Record, reply: Reply)
    ensures Stamped(r, reply).status.Some? && Stamped(r, reply).sig == r.sig
  {}

  lemma StepTracks(initial: seq<Record>, s: System, e: Event)
    requires forall i :: 0 <= i < |initial| ==> Unset(initial[i])
    requires Tracks(initial, s)
    ensures Tracks(initial, Step(s, e))
  {
    var s' := Step(s, e);
    forall i | 0 <= i < |initial|
      ensures s'.records[i] == Outcome(initial[i], s'.tasks[i])
      ensures s'.tasks[i].NoTask? <==> !CarriesSig(initial[i])
      ensures s'.tasks[i].Cancelled? ==> s'.over
    {
      assert s.records[i] == Outcome(initial[i], s.tasks[i]);
      if s.tasks[i].Finished? {
        StampKeepsSig(Marked(initial[i]), s.tasks[i].reply);
      }
    }
  }

  lemma {:induction false} RunTracks(initial: seq<Record>, s: System, es: seq<Event>)
    requires forall i :: 0 <= i < |initial| ==> Unset(initial[i])
    requires Tracks(initial, s)
    ensures Tracks(initial, Run(s, es))
    decreases |es|
  {
    if es != [] {
      StepTracks(initial, s, es[0]);
      RunTracks(initial, Step(s, es[0]), es[1..]);
    }
  }

  /** The boolean says exactly what the status says. */
  predicate Consistent(r: Record) {
    r.status.Some? &&
    match r.status.value
    case Verified => r.verified == Some(true)
    case VerifiedEndpointOnly => r.verified == Some(true)
    case Invalid => r.verified == Some(false)
    case Unbound => r.verified == Some(false)
    case Expired => r.verified == Some(false)
    case NoKey => r.verified == None
    case NotSigned => r.verified == None
    case NotChecked => r.verified == None
  }

  /** What a positive stamp rests on. */
  predicate Justified(r: Record, t: Task) {
    && (r.verified == Some(true) ==>
          t.Finished? && t.reply.Returned? && t.reply.verdict.Verified? && Binds(r, t.reply.verdict.payload))
    && (r.coversParams ==>
          r.verified == Some(true) && t.Finished? && t.reply.Returned? && t.reply.verdict.Verified?
          && t.reply.verdict.payload.svcb == Some(r.digest) && EndpointMatches(r, t.reply.verdict.payload))
    && (r.status == Some(Status.Verified) <==> r.coversParams)
    && r.algorithm == if r.verified == Some(true) then r.declared else None
  }

  lemma OutcomeIsConsistent(r: Record, t: Task)
    requires Unset(r) && (t.NoTask? <==> !CarriesSig(r)) && !t.Pending?
    ensures Outcome(r, t).status.Some? <==> r.sig != Some("")
    ensures r.sig != Some("") ==> Consistent(Outcome(r, t))
    ensures Justified(Outcome(r, t), t)
  {}

  /** After any interleaving that has ended, whether or not the budget cut it short, every record has
      a status unless it carries an empty signature; boolean and status agree, and a positive stamp
      rests on a verified payload that describes the record. */
  lemma EveryRecordIsAccountedFor(initial: seq<Record>, es: seq<Event>, i: nat)
    requires forall k :: 0 <= k < |initial| ==> Unset(initial[k])
    requires i < |initial| && Done(Run(Start(initial), es))
    ensures var s := Run(Start(initial), es);
      && (s.records[i].status.Some? <==> initial[i].sig != Some(""))
      && (initial[i].sig != Some("") ==> Consistent(s.records[i]))
      && Justified(s.records[i], s.tasks[i])
      && (initial[i].sig.None? ==> s.records[i] == initial[i].(status := Some(NotSigned)))
      && match s.tasks[i]
         case Finished(reply) => s.records[i] == Stamped(initial[i], reply)
         case Cancelled => s.records[i] == initial[i].(status := Some(NotChecked))
         case _ => !CarriesSig(initial[i])
  {
    RunTracks(initial, Start(initial), es);
    RunOver(Start(initial), es);
    OutcomeIsConsistent(initial[i], Run(Start(initial), es).tasks[i]);
  }

  ghost predicate OverMeansNonePending(s: System) {
    s.over ==> forall i :: 0 <= i < |s.tasks| ==> !s.tasks[i].Pending?
  }

  lemma {:induction false} RunOver(s: System, es: seq<Event>)
    requires |s.tasks| == |s.records| && OverMeansNonePending(s)
    ensures OverMeansNonePending(Run(s, es))
    decreases |es|
  {
    if es != [] {
      RunOver(Step(s, es[0]), es[1..]);
    }
  }

  /** Two interleavings in which a record's task ends the same way leave the record the same. */
  lemma OrderDoesNotMatter(initial: seq<Record>, es: seq<Event>, fs: seq<Event>, i: nat)
    requires forall k :: 0 <= k < |initial| ==> Unset(initial[k])
    requires i < |initial| && Run(Start(initial), es).tasks[i] == Run(Start(initial), fs).tasks[i]
    ensures Run(Start(initial), es).records[i] == Run(Start(initial), fs).records[i]
  {
    RunTracks(initial, Start(initial), es);
    RunTracks(initial, Start(initial), fs);
  }

  /** What a publisher signs for a record. */
  function PayloadOf(r: Record, iat: int, exp: int): Jws.Payload {
    Jws.Payload(r.fqdn, r.target, r.port, r.alpn, iat, exp, Some(r.digest))
  }

  /** End to end: a record signed by its publisher, whose key set lists the signing key, is stamped
      verified with its parameters covered for as long as the signature lasts, and expired afterwards;
      the key set's other entries, its order and the refetch budget make no difference. */
  lemma SignedRecordIsStampedVerified(r: Record, iat: int, exp: int, sk: nat, kid: Option<string>,
                                      keys: seq<V.Jwk>, k: nat, budget: bool, refetched: Option<seq<V.Jwk>>,
                                      j: Jws.Json, e: Jws.Ecdsa, now: real)
    requires Jws.JsonLaws(j) && Jws.EcdsaLaws(e) && Ascii(r.digest)
    requires k < |keys| && keys[k].Jwk? && keys[k].key == Some(e.publicKey(sk)) && (kid.Some? ==> keys[k].kid == kid)
    ensures var jws := Jws.SignRecord(PayloadOf(r, iat, exp), sk, kid, j, e);
      var verdict := V.Decide(Some(keys), Jws.JwsKid(jws, j), budget, refetched, pk => Jws.VerifyDetailed(jws, pk, j, e, now));
      var stamped := Stamped(r, Returned(verdict));
      if exp as real >= now
      then stamped.verified == Some(true) && stamped.status == Some(Status.Verified) && stamped.coversParams
      else stamped.verified == Some(false) && stamped.status == Some(Status.Expired)
  {
    Jws.PublishedKeyVerifies(PayloadOf(r, iat, exp), sk, kid, keys, k, budget, refetched, j, e, now);
  }
}
