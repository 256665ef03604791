/** Upserts against a zone that others write to at the same time, and rate-limit retries (Cloudflare). */
module CloudflareWrites {
  import opened Wrappers

  const IDENTICAL_RECORD: int := 81058

  type RecordId = string

  datatype Record = Record(fqdn: string, rtype: string, data: string)

  /** The zone as the server holds it. */
  type Zone = map<RecordId, Record>

  datatype Request = Put(id: RecordId, record: Record) | Post(record: Record)

  datatype Body = NotJson | Json(success: bool, codes: seq<int>)

  datatype Response = Response(status: int, body: Body)

  predicate Says(r: Response, code: int) {
    r.body.Json? && code in r.body.codes
  }

  predicate Success(r: Response) {
    r.body.Json? && r.body.success
  }

  predicate Identical(r: Response) {
    r.status == 400 && Says(r, IDENTICAL_RECORD)
  }

  predicate Present(zone: Zone, record: Record) {
    exists id :: id in zone && zone[id] == record
  }

  const DONE := Response(200, Json(true, []))
  const MISSING := Response(404, Json(false, [81044]))
  const DUPLICATE := Response(400, Json(false, [IDENTICAL_RECORD]))

  /** The service: a zone never holds two identical records, and a refused request changes nothing. */
  function Serve(zone: Zone, q: Request, newId: RecordId): (Zone, Response) {
    match q
    case Put(id, record) =>
      if id !in zone then (zone, MISSING)
      else if Present(zone - {id}, record) then (zone, DUPLICATE)
      else (zone[id := record], DONE)
    case Post(record) =>
      if Present(zone, record) then (zone, DUPLICATE) else (zone[newId := record], DONE)
  }

  /** An error that answers in the service's place, before or after the request is carried out. */
  datatype Fault = Fault(response: Response, carriedOut: bool)

  /** What a request meets on arrival: the zone as others have left it by then, and possibly a fault.
      Nothing relates one arrival to the next. */
  datatype Arrival = Arrival(zone: Zone, newId: RecordId, fault: Option<Fault>)

  ghost predicate Possible(m: Arrival) {
    m.newId !in m.zone && (m.fault.Some? ==> !Success(m.fault.value.response) && !Identical(m.fault.value.response))
  }

  function Meet(m: Arrival, q: Request): (Zone, Response) {
    var (zone, response) := Serve(m.zone, q, m.newId);
    match m.fault
    case None => (zone, response)
    case Some(f) => (if f.carriedOut then zone else m.zone, f.response)
  }

  /** The update would repeat another record of the zone. */
  ghost predicate Collides(m: Arrival, existing: Option<RecordId>, record: Record) {
    existing.Some? && existing.value in m.zone && Present(m.zone - {existing.value}, record)
  }

  /** Every record but the one written is as the last request found it. */
  ghost predicate Untouched(before: Zone, after: Zone, record: Record) {
    && (forall id :: id in after ==> after[id] == record || (id in before && after[id] == before[id]))
    && (forall id :: id in before ==> id in after)
  }

  lemma ServedIsPresent(m: Arrival, q: Request)
    requires Possible(m) && Success(Meet(m, q).1)
    ensures Present(Meet(m, q).0, q.record)
  {
    var id := if q.Put? then q.id else m.newId;
    assert id in Meet(m, q).0 && Meet(m, q).0[id] == q.record;
  }

  /** Create or update: at most two writes, the second only after the record to update has vanished.
      Success is reported only when the zone holds the record as requested, whatever others did in
      between; and unless the service fails, the write succeeds exactly when it is not an update that
      would repeat another record. */
  method WriteRecord(existing: Option<RecordId>, record: Record, first: Arrival, second: Arrival)
    returns (written: bool, sent: seq<Request>, zone: Zone)
    requires Possible(first) && Possible(second)
    ensures sent == [Post(record)] || (existing.Some? && sent == [Put(existing.value, record)])
      || (existing.Some? && sent == [Put(existing.value, record), Post(record)]
          && Meet(first, sent[0]).1.status == 404)
    ensures existing.Some? <==> sent[0].Put?
    ensures written ==> Present(zone, record)
    ensures first.fault.None? && (|sent| == 2 ==> second.fault.None?) ==> (written <==> !Collides(first, existing, record))
    ensures written ==> (if |sent| == 1 then first else second).fault.None?
    ensures Untouched(if |sent| == 1 then first.zone else second.zone, zone, record)
  {
    var response: Response;
    var viaPost := existing.None?;
    if existing.Some? {
      var put := Put(existing.value, record);
      var met := Meet(first, put);
      zone, response := met.0, met.1;
      sent := [put];
      if response.status == 404 {
        met := Meet(second, Post(record));
        zone, response := met.0, met.1;
        sent := sent + [Post(record)];
        viaPost := true;
      }
    } else {
      var met := Meet(first, Post(record));
      zone, response := met.0, met.1;
      sent := [Post(record)];
    }
    if viaPost && Identical(response) {
      return true, sent, zone;
    }
    written := Success(response);
    if written {
      ServedIsPresent(if |sent| == 1 then first else second, sent[|sent| - 1]);
    }
  }

  // ---- rate limiting ----

  const MAX_RETRIES: nat := 3
  const BASE_DELAY: real := 1.0
  const MAX_DELAY: real := 30.0

  /** A response as far as throttling goes; `retryAfter` is absent when the header is missing or unusable. */
  datatype Throttle = Throttle(status: int, failed: bool, mentionsRateLimit: bool, retryAfter: Option<real>)

  predicate RateLimited(r: Throttle) {
    r.status == 429 || (r.status == 200 && r.failed && r.mentionsRateLimit)
  }

  /** Throttled: by status, or by an error under status 200 that speaks of rate limits. */
  lemma RateLimitedExactly(r: Throttle)
    ensures RateLimited(r) <==> r.status == 429 || (r.status == 200 && r.failed && r.mentionsRateLimit)
  {}

  /** The wait planned before retry `n`: a second, doubled after every answer that asked for no delay, at most
      half a minute. */
  function Planned(answers: nat -> Throttle, n: nat): real {
    if n == 0 then 1.0
    else if answers(n - 1).retryAfter.Some? then Planned(answers, n - 1)
    else Min(2.0 * Planned(answers, n - 1), 30.0)
  }

  /** The wait before retry `n`: what the answer asked for, from nothing to half a minute, or as planned. */
  function Wait(answers: nat -> Throttle, n: nat): real {
    match answers(n).retryAfter
    case Some(t) => if t < 0.0 then 0.0 else Min(t, 30.0)
    case None => Planned(answers, n)
  }

  function Waited(answers: nat -> Throttle, n: nat): real {
    if n == 0 then 0.0 else Waited(answers, n - 1) + Wait(answers, n - 1)
  }

  function Min(a: real, b: real): real {
    if a < b then a else b
  }

  /** Send until a response is not throttled, at most four times. `answers(i)` is the i-th response. */
  method Send(answers: nat -> Throttle) returns (response: Option<Throttle>, sends: nat, slept: real)
    ensures 1 <= sends <= 4
    ensures 0.0 <= slept <= 90.0 && slept == Waited(answers, sends - 1)
    ensures forall i: nat :: i < sends - 1 ==> RateLimited(answers(i))
    ensures response.Some? ==> response.value == answers(sends - 1) && !RateLimited(response.value)
    ensures response.None? <==> forall i: nat :: i < 4 ==> RateLimited(answers(i))
  {
    var delay := BASE_DELAY;
    sends, slept := 1, 0.0;
    var current := answers(0);
    var attempt := 0;
    while attempt < MAX_RETRIES
      invariant 0 <= attempt <= MAX_RETRIES && sends == attempt + 1
      invariant current == answers(attempt)
      invariant 0.0 <= delay <= MAX_DELAY && 0.0 <= slept <= attempt as real * MAX_DELAY
      invariant delay == Planned(answers, attempt) && slept == Waited(answers, attempt)
      invariant forall i: nat :: i < attempt ==> RateLimited(answers(i))
    {
      if !RateLimited(current) {
        return Some(current), sends, slept;
      }
      var wait := delay;
      if current.retryAfter.Some? {
        var asked := if current.retryAfter.value < 0.0 then 0.0 else current.retryAfter.value;
        wait := Min(asked, MAX_DELAY);
      } else {
        delay := Min(delay * 2.0, MAX_DELAY);
      }
      slept := slept + wait;
      attempt := attempt + 1;
      current := answers(attempt);
      sends := sends + 1;
    }
    response := if RateLimited(current) then None else Some(current);
  }
}
