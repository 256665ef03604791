/** The in-memory zone store behind the publisher and the indexer, as a backend that may also fail. */
module ZoneStore {
  import opened Wrappers
  import opened OrderedDict

  datatype Type = SVCB | TXT

  datatype Svcb = Svcb(priority: nat, target: string, params: seq<Item<string, string>>)

  /** What one owner name holds. */
  datatype Owner = Owner(svcb: Option<Svcb>, txt: Option<seq<string>>)

  const NOTHING := Owner(None, None)

  /** The owner names of one zone, in the order they were first written. */
  type Zone = seq<Item<string, Owner>>
  type Records = map<string, Zone>

  /** How a backend meets one request: as asked, by doing nothing and answering False, by raising, by doing
      as asked and raising all the same, or, if it is to list records, by raising after so many owners. */
  datatype Response = Obeys | Masks | Raises | Loses | BreaksOff(after: nat)

  predicate Fails(r: Response) {
    r.Raises? || r.Loses? || r.BreaksOff?
  }

  /** Whether a record to be written is written. */
  predicate Takes(r: Response) {
    !Fails(r) || r.Loses?
  }

  /** The records together with the number of requests made so far. */
  datatype Store = Store(records: Records, calls: nat)

  function ZoneOf(records: Records, zone: string): Zone {
    if zone in records then records[zone] else []
  }

  function OwnerIn(z: Zone, name: string): Owner {
    match Get(z, name)
    case Some(o) => o
    case None => NOTHING
  }

  function Look(records: Records, zone: string, name: string): Owner {
    OwnerIn(ZoneOf(records, zone), name)
  }

  function Write(records: Records, zone: string, name: string, o: Owner): Records {
    records[zone := Put(ZoneOf(records, zone), name, o)]
  }

  predicate Has(o: Owner, t: Type) {
    match t
    case SVCB => o.svcb.Some?
    case TXT => o.txt.Some?
  }

  function Without(o: Owner, t: Type): Owner {
    match t
    case SVCB => o.(svcb := None)
    case TXT => o.(txt := None)
  }

  lemma Written(records: Records, zone: string, name: string, o: Owner, z: string, n: string)
    ensures Look(Write(records, zone, name, o), z, n) == if z == zone && n == name then o else Look(records, z, n)
  {
    var d := ZoneOf(records, zone);
    if z == zone && n == name {
      PutGet(d, name, o);
    } else if z == zone {
      PutOther(d, name, o, n);
    }
  }

  // ---- the requests ----

  type Responses = nat -> Response

  /** Writing an owner, and whether that is reported. */
  function Creating(s: Store, answer: Responses, zone: string, name: string, o: Owner): (Store, bool) {
    (Store(if Takes(answer(s.calls)) then Write(s.records, zone, name, o) else s.records, s.calls + 1), !Fails(answer(s.calls)))
  }

  /** Creating replaces whatever record of the type the owner has. */
  function CreateSvcb(s: Store, answer: Responses, zone: string, name: string, r: Svcb): (Store, bool) {
    Creating(s, answer, zone, name, Look(s.records, zone, name).(svcb := Some(r)))
  }

  function CreateTxt(s: Store, answer: Responses, zone: string, name: string, values: seq<string>): (Store, bool) {
    Creating(s, answer, zone, name, Look(s.records, zone, name).(txt := Some(values)))
  }

  /** Whether a record was there; None is an exception. */
  function Delete(s: Store, answer: Responses, zone: string, name: string, t: Type): (Store, Option<bool>) {
    var after, o := s.(calls := s.calls + 1), Look(s.records, zone, name);
    match answer(s.calls)
    case Raises => (after, None)
    case BreaksOff(_) => (after, None)
    case Loses => (if Has(o, t) then after.(records := Write(s.records, zone, name, Without(o, t))) else after, None)
    case Masks => (after, Some(false))
    case Obeys =>
      if Has(o, t) then (after.(records := Write(s.records, zone, name, Without(o, t))), Some(true))
      else (after, Some(false))
  }

  function Probe(s: Store, answer: Responses, zone: string, name: string, t: Type): (Store, Option<bool>) {
    (s.(calls := s.calls + 1), if Fails(answer(s.calls)) then None else Some(Has(Look(s.records, zone, name), t)))
  }

  /** The owners yielded, for the caller to filter by name and type, and whether those are all. */
  datatype Listing = Listing(owners: Zone, complete: bool)

  /** What a listing yields before it ends or raises. */
  function Yielded(all: Zone, r: Response): Zone {
    match r
    case Raises => []
    case BreaksOff(n) => if n < |all| then all[..n] else all
    case _ => all
  }

  function List(s: Store, answer: Responses, zone: string): (Store, Listing) {
    (s.(calls := s.calls + 1), Listing(Yielded(ZoneOf(s.records, zone), answer(s.calls)), !Fails(answer(s.calls))))
  }

  lemma CreateSvcbEffect(s: Store, answer: Responses, zone: string, name: string, r: Svcb, z: string, n: string)
    ensures var (s', ok) := CreateSvcb(s, answer, zone, name, r);
      && s'.calls == s.calls + 1
      && ok == !Fails(answer(s.calls))
      && Look(s'.records, z, n)
         == (if Takes(answer(s.calls)) && z == zone && n == name then Look(s.records, z, n).(svcb := Some(r))
             else Look(s.records, z, n))
  {
    Written(s.records, zone, name, Look(s.records, zone, name).(svcb := Some(r)), z, n);
  }

  /** Only the requested record changes. */
  lemma DeleteEffect(s: Store, answer: Responses, zone: string, name: string, t: Type, z: string, n: string)
    ensures var (s', r) := Delete(s, answer, zone, name, t);
      && s'.calls == s.calls + 1
      && (r == None <==> Fails(answer(s.calls)))
      && (r == Some(true) <==> answer(s.calls).Obeys? && Has(Look(s.records, zone, name), t))
      && Look(s'.records, z, n)
         == (if (r == Some(true) || answer(s.calls).Loses?) && z == zone && n == name then Without(Look(s.records, z, n), t)
             else Look(s.records, z, n))
  {
    Written(s.records, zone, name, Without(Look(s.records, zone, name), t), z, n);
  }

  class Backend {
    /** The zones served; none listed means all of them. */
    const zones: set<string>
    const answer: Responses
    var records: Records
    var calls: nat

    function Now(): Store
      reads this
    {
      Store(records, calls)
    }

    constructor (zones: set<string>, answer: Responses)
      ensures this.zones == zones && this.answer == answer && Now() == Store(map[], 0)
    {
      this.zones, this.answer, records, calls := zones, answer, map[], 0;
    }

    predicate ZoneExists(zone: string) {
      zones == {} || zone in zones
    }

    method CreateSvcbRecord(zone: string, name: string, r: Svcb) returns (ok: bool)
      modifies this
      ensures (Now(), ok) == CreateSvcb(old(Now()), answer, zone, name, r)
    {
      var response := answer(calls);
      ok := !Fails(response);
      calls := calls + 1;
      if Takes(response) {
        records := Write(records, zone, name, Look(records, zone, name).(svcb := Some(r)));
      }
    }

    method CreateTxtRecord(zone: string, name: string, values: seq<string>) returns (ok: bool)
      modifies this
      ensures (Now(), ok) == CreateTxt(old(Now()), answer, zone, name, values)
    {
      var response := answer(calls);
      ok := !Fails(response);
      calls := calls + 1;
      if Takes(response) {
        records := Write(records, zone, name, Look(records, zone, name).(txt := Some(values)));
      }
    }

    method DeleteRecord(zone: string, name: string, t: Type) returns (deleted: Option<bool>)
      modifies this
      ensures (Now(), deleted) == Delete(old(Now()), answer, zone, name, t)
    {
      var response, o := answer(calls), Look(records, zone, name);
      calls := calls + 1;
      if Has(o, t) && (response.Obeys? || response.Loses?) {
        records := Write(records, zone, name, Without(o, t));
      }
      deleted := if Fails(response) then None else Some(response.Obeys? && Has(o, t));
    }

    method ListRecords(zone: string) returns (listing: Listing)
      modifies this`calls
      ensures (Now(), listing) == List(old(Now()), answer, zone)
    {
      var response := answer(calls);
      calls := calls + 1;
      listing := Listing(Yielded(ZoneOf(records, zone), response), !Fails(response));
    }

    method GetRecord(zone: string, name: string, t: Type) returns (found: Option<bool>)
      modifies this`calls
      ensures (Now(), found) == Probe(old(Now()), answer, zone, name, t)
    {
      var response := answer(calls);
      calls := calls + 1;
      found := if Fails(response) then None else Some(Has(Look(records, zone, name), t));
    }
  }
}
