/** The per-zone budget of forced key-set refetches: a table of at most 512 zones, ordered by
    recency, that remembers when each zone last spent its refetch. */
module RefetchBudget {
  import opened Wrappers
  import opened OrderedDict

  const CACHE_TTL: real := 3600.0
  const TABLE_MAX: nat := 512

  type Table = seq<Item<string, real>>

  /** One granted reservation. */
  datatype Reservation = Reservation(zone: string, at: real)

  predicate Grants(t: Table, zone: string, now: real) {
    match Get(t, zone)
    case None => true
    case Some(last) => now - last >= CACHE_TTL
  }

  /** Check and stamp, in one step: nothing is awaited in between. */
  function Reserve(t: Table, zone: string, now: real): Table {
    if Grants(t, zone, now)
    then Pop(Room(t, TABLE_MAX), zone) + [Item(zone, now)]
    else t
  }

  function Logged(log: seq<Reservation>, t: Table, zone: string, now: real): seq<Reservation> {
    if Grants(t, zone, now) then log + [Reservation(zone, now)] else log
  }

  /** The other zones reserved strictly between two reservations. */
  function OthersBetween(log: seq<Reservation>, p: nat, q: nat): set<string>
    requires p < q <= |log|
  {
    set r | p < r < q && log[r].zone != log[p].zone :: log[r].zone
  }

  /** Two reservations of one zone less than a window apart have at least 512 other zones in between. */
  ghost predicate Spaced(log: seq<Reservation>) {
    forall p, q :: 0 <= p < q < |log| && log[p].zone == log[q].zone && log[q].at - log[p].at < CACHE_TTL
      ==> |OthersBetween(log, p, q)| >= TABLE_MAX
  }

  /** `at[i]` is the reservation that table row `i` stems from. */
  ghost predicate Rows(t: Table, log: seq<Reservation>, at: seq<nat>) {
    && |at| == |t|
    && (forall i :: 0 <= i < |t| ==> at[i] < |log| && log[at[i]] == Reservation(t[i].key, t[i].val))
    && (forall i, j :: 0 <= i < j < |t| ==> at[i] < at[j])
  }

  /** Why reservation `p` no longer blocks its zone, if it does not. */
  ghost predicate Accounted(log: seq<Reservation>, at: seq<nat>, now: real, p: nat)
    requires p < |log|
  {
    || (exists q :: p < q < |log| && log[q].zone == log[p].zone)
    || p in at
    || now - log[p].at >= CACHE_TTL
    || |OthersBetween(log, p, |log|)| >= TABLE_MAX
  }

  ghost predicate Timely(log: seq<Reservation>, now: real) {
    && (forall p, q :: 0 <= p < q < |log| ==> log[p].at <= log[q].at)
    && (forall p :: 0 <= p < |log| ==> log[p].at <= now)
  }

  ghost predicate AllAccounted(log: seq<Reservation>, at: seq<nat>, now: real) {
    forall p :: 0 <= p < |log| ==> Accounted(log, at, now, p)
  }

  /** Each row is its zone's last reservation, and every zone reserved after it has a row too. */
  ghost predicate Latest(t: Table, log: seq<Reservation>, at: seq<nat>) {
    && |at| == |t|
    && forall i, p :: 0 <= i < |t| && at[i] < p < |log| ==> log[p].zone != t[i].key && log[p].zone in Keys(t)
  }

  ghost predicate BudgetOk(t: Table, log: seq<Reservation>, at: seq<nat>, now: real) {
    && Unique(t) && |t| <= TABLE_MAX
    && Rows(t, log, at)
    && Latest(t, log, at)
    && Timely(log, now)
    && AllAccounted(log, at, now)
    && Spaced(log)
  }

  lemma TimePasses(t: Table, log: seq<Reservation>, at: seq<nat>, now: real, later: real)
    requires BudgetOk(t, log, at, now) && now <= later
    ensures BudgetOk(t, log, at, later)
  {
    forall p | 0 <= p < |log| ensures Accounted(log, at, later, p) {
      assert Accounted(log, at, now, p);
    }
  }

  lemma OthersSame(log: seq<Reservation>, r: Reservation, p: nat, q: nat)
    requires p < q <= |log|
    ensures OthersBetween(log + [r], p, q) == OthersBetween(log, p, q)
  {
    assert forall i :: 0 <= i < |log| ==> (log + [r])[i] == log[i];
  }

  lemma OthersGrow(log: seq<Reservation>, r: Reservation, p: nat)
    requires p < |log|
    ensures |OthersBetween(log + [r], p, |log| + 1)| >= |OthersBetween(log, p, |log|)|
  {
    OthersSame(log, r, p, |log|);
    SubsetCount(OthersBetween(log + [r], p, |log|), OthersBetween(log + [r], p, |log| + 1));
  }

  lemma {:induction false} SubsetCount<T>(a: set<T>, b: set<T>)
    requires a <= b
    ensures |a| <= |b|
  {
    if x :| x in a {
      SubsetCount(a - {x}, b - {x});
    }
  }

  /** The last reservation of a zone before a given point. */
  lemma {:induction false} LastOf(log: seq<Reservation>, p: nat) returns (last: nat)
    requires p < |log|
    ensures p <= last < |log| && log[last].zone == log[p].zone
    ensures forall q :: last < q < |log| ==> log[q].zone != log[p].zone
    decreases |log| - p
  {
    if q :| p < q < |log| && log[q].zone == log[p].zone {
      last := LastOf(log, q);
    } else {
      last := p;
    }
  }

  /** A granted reservation of a zone that was reserved less than a window ago. */
  lemma GrantedAgain(t: Table, log: seq<Reservation>, at: seq<nat>, now: real, zone: string, p: nat)
    requires BudgetOk(t, log, at, now) && Grants(t, zone, now)
    requires p < |log| && log[p].zone == zone && now - log[p].at < CACHE_TTL
    ensures |OthersBetween(log, p, |log|)| >= TABLE_MAX
  {
    var last := LastOf(log, p);
    assert Accounted(log, at, now, last);
    if last in at {
      assert false;
    }
    assert OthersBetween(log, last, |log|) <= OthersBetween(log, p, |log|);
    SubsetCount(OthersBetween(log, last, |log|), OthersBetween(log, p, |log|));
  }

  /** The row evicted to make room has 512 distinct zones behind it, or has outlived its window. */
  lemma EvictedRow(t: Table, log: seq<Reservation>, at: seq<nat>, now: real, zone: string)
    requires BudgetOk(t, log, at, now) && Grants(t, zone, now)
    requires |t| == TABLE_MAX && t[0].key != zone && now - t[0].val < CACHE_TTL
    ensures |OthersBetween(log + [Reservation(zone, now)], at[0], |log| + 1)| >= TABLE_MAX
  {
    var log' := log + [Reservation(zone, now)];
    var others := OthersBetween(log', at[0], |log| + 1);
    var i := Index(t, zone);
    if i < |t| {
      assert false;
    }
    var kept := t[1..];
    KeysCount(kept);
    assert zone !in Keys(kept);
    forall k | k in Keys(kept) + {zone} ensures k in others {
      if k == zone {
        assert log'[|log|].zone == k;
      } else {
        var j :| 0 <= j < |kept| && kept[j].key == k;
        assert t[j + 1].key == k && log'[at[j + 1]].zone == k && at[0] < at[j + 1];
      }
    }
    SubsetCount(Keys(kept) + {zone}, others);
  }

  /** Where the rows of the popped table stem from. */
  function RowsPopped(t: Table, at: seq<nat>, zone: string): seq<nat>
    requires |at| == |t|
  {
    var i := Index(t, zone);
    if i < |t| then at[..i] + at[i + 1..] else at
  }

  lemma PopKeeps(t: Table, log: seq<Reservation>, at: seq<nat>, zone: string)
    requires Unique(t) && Rows(t, log, at)
    ensures Unique(Pop(t, zone)) && Rows(Pop(t, zone), log, RowsPopped(t, at, zone))
    ensures forall i :: 0 <= i < |Pop(t, zone)| ==> Pop(t, zone)[i].key != zone
  {
    var i, t', at' := Index(t, zone), Pop(t, zone), RowsPopped(t, at, zone);
    forall j | 0 <= j < |t'|
      ensures t'[j] == t[if j < i then j else j + 1] && at'[j] == at[if j < i then j else j + 1]
    {}
  }

  lemma PopRetains(t: Table, at: seq<nat>, zone: string, j: nat)
    requires |at| == |t| && j < |t| && t[j].key != zone
    ensures at[j] in RowsPopped(t, at, zone)
  {
    var i, at' := Index(t, zone), RowsPopped(t, at, zone);
    assert at'[if j < i then j else j - 1] == at[j];
  }

  lemma AppendKeeps(t: Table, log: seq<Reservation>, at: seq<nat>, zone: string, now: real)
    requires Unique(t) && Rows(t, log, at)
    requires forall i :: 0 <= i < |t| ==> t[i].key != zone
    ensures Unique(t + [Item(zone, now)])
    ensures Rows(t + [Item(zone, now)], log + [Reservation(zone, now)], at + [|log|])
  {}

  lemma RoomKeeps(t: Table, log: seq<Reservation>, at: seq<nat>)
    requires Unique(t) && |t| <= TABLE_MAX && Rows(t, log, at)
    ensures var t1 := Room(t, TABLE_MAX);
      Unique(t1) && |t1| < TABLE_MAX && Rows(t1, log, at[|t| - |t1|..])
  {}

  /** Where the rows stem from after a grant. */
  function RowsAfter(t: Table, at: seq<nat>, zone: string, n: nat): seq<nat>
    requires |at| == |t|
  {
    var t1 := Room(t, TABLE_MAX);
    RowsPopped(t1, at[|t| - |t1|..], zone) + [n]
  }

  lemma RowsKept(t: Table, log: seq<Reservation>, at: seq<nat>, zone: string, now: real)
    requires Unique(t) && |t| <= TABLE_MAX && Rows(t, log, at) && Grants(t, zone, now)
    ensures var t', at', log' := Reserve(t, zone, now), RowsAfter(t, at, zone, |log|), log + [Reservation(zone, now)];
      Unique(t') && |t'| <= TABLE_MAX && Rows(t', log', at')
  {
    var t1 := Room(t, TABLE_MAX);
    var at1 := at[|t| - |t1|..];
    RoomKeeps(t, log, at);
    PopKeeps(t1, log, at1, zone);
    AppendKeeps(Pop(t1, zone), log, RowsPopped(t1, at1, zone), zone, now);
  }

  /** A row survives a grant unless it is the zone's own or the one evicted. */
  lemma RowSurvives(t: Table, at: seq<nat>, zone: string, j: nat, n: nat)
    requires |at| == |t| <= TABLE_MAX && j < |t| && t[j].key != zone && (j > 0 || |t| < TABLE_MAX)
    ensures at[j] in RowsAfter(t, at, zone, n)
  {
    var t1 := Room(t, TABLE_MAX);
    var off := |t| - |t1|;
    var at1 := at[off..];
    assert t1[j - off] == t[j] && at1[j - off] == at[j];
    PopRetains(t1, at1, zone, j - off);
  }

  /** A live row survives, or is evicted with 512 other zones behind it. */
  lemma LiveRow(t: Table, log: seq<Reservation>, at: seq<nat>, zone: string, now: real, i: nat)
    requires BudgetOk(t, log, at, now) && Grants(t, zone, now)
    requires i < |t| && t[i].key != zone && now - t[i].val < CACHE_TTL
    ensures || at[i] in RowsAfter(t, at, zone, |log|)
            || |OthersBetween(log + [Reservation(zone, now)], at[i], |log| + 1)| >= TABLE_MAX
  {
    if i == 0 && |t| == TABLE_MAX {
      EvictedRow(t, log, at, now, zone);
    } else {
      RowSurvives(t, at, zone, i, |log|);
    }
  }

  /** The same, by the reservation the row stems from. */
  lemma LiveReservation(t: Table, log: seq<Reservation>, at: seq<nat>, zone: string, now: real, p: nat)
    requires BudgetOk(t, log, at, now) && Grants(t, zone, now)
    requires p < |log| && p in at && log[p].zone != zone && now - log[p].at < CACHE_TTL
    ensures || p in RowsAfter(t, at, zone, |log|)
            || |OthersBetween(log + [Reservation(zone, now)], p, |log| + 1)| >= TABLE_MAX
  {
    var i :| 0 <= i < |at| && at[i] == p;
    LiveRow(t, log, at, zone, now, i);
  }

  lemma CarryAccount(log: seq<Reservation>, at: seq<nat>, at': seq<nat>, r: Reservation, now: real, p: nat)
    requires p < |log| && Accounted(log, at, now, p)
    requires p in at && log[p].zone != r.zone && now - log[p].at < CACHE_TTL ==>
      p in at' || |OthersBetween(log + [r], p, |log| + 1)| >= TABLE_MAX
    ensures Accounted(log + [r], at', now, p)
  {
    var log' := log + [r];
    assert log'[p] == log[p];
    if log[p].zone == r.zone {
      assert log'[|log|].zone == log'[p].zone;
    } else if q :| p < q < |log| && log[q].zone == log[p].zone {
      assert log'[q].zone == log'[p].zone;
    } else {
      OthersGrow(log, r, p);
    }
  }

  /** Every earlier reservation stays accounted for. */
  lemma StillAccounted(t: Table, log: seq<Reservation>, at: seq<nat>, zone: string, now: real, p: nat)
    requires BudgetOk(t, log, at, now) && Grants(t, zone, now) && p < |log|
    ensures Accounted(log + [Reservation(zone, now)], RowsAfter(t, at, zone, |log|), now, p)
  {
    if p in at && log[p].zone != zone && now - log[p].at < CACHE_TTL {
      LiveReservation(t, log, at, zone, now, p);
    }
    CarryAccount(log, at, RowsAfter(t, at, zone, |log|), Reservation(zone, now), now, p);
  }

  lemma StillSpaced(t: Table, log: seq<Reservation>, at: seq<nat>, zone: string, now: real)
    requires BudgetOk(t, log, at, now) && Grants(t, zone, now)
    ensures Spaced(log + [Reservation(zone, now)])
  {
    var r := Reservation(zone, now);
    var log' := log + [r];
    forall p, q | 0 <= p < q < |log'| && log'[p].zone == log'[q].zone && log'[q].at - log'[p].at < CACHE_TTL
      ensures |OthersBetween(log', p, q)| >= TABLE_MAX
    {
      if q == |log| {
        GrantedAgain(t, log, at, now, zone, p);
      }
      OthersSame(log, r, p, q);
    }
  }

  lemma AllStillAccounted(t: Table, log: seq<Reservation>, at: seq<nat>, zone: string, now: real)
    requires BudgetOk(t, log, at, now) && Grants(t, zone, now)
    ensures AllAccounted(log + [Reservation(zone, now)], RowsAfter(t, at, zone, |log|), now)
  {
    var at' := RowsAfter(t, at, zone, |log|);
    assert at'[|at'| - 1] == |log|;
    forall p | 0 <= p < |log| + 1 ensures Accounted(log + [Reservation(zone, now)], at', now, p) {
      if p < |log| {
        StillAccounted(t, log, at, zone, now, p);
      }
    }
  }

  lemma PoppedBefore(t: Table, at: seq<nat>, zone: string, k: nat) returns (j: nat)
    requires |at| == |t| && Unique(t) && k < |Pop(t, zone)|
    ensures |RowsPopped(t, at, zone)| == |Pop(t, zone)|
    ensures j < |t| && Pop(t, zone)[k] == t[j] && RowsPopped(t, at, zone)[k] == at[j] && t[j].key != zone
  {
    j := if k < Index(t, zone) then k else k + 1;
  }

  /** Where a row that a grant leaves was before; it is neither the zone's own nor the one evicted. */
  lemma RowBefore(t: Table, at: seq<nat>, zone: string, n: nat, k: nat) returns (j: nat)
    requires |at| == |t| <= TABLE_MAX && Unique(t) && k < |Pop(Room(t, TABLE_MAX), zone)|
    ensures |RowsAfter(t, at, zone, n)| == |Pop(Room(t, TABLE_MAX), zone)| + 1
    ensures j < |t| && Pop(Room(t, TABLE_MAX), zone)[k] == t[j] && RowsAfter(t, at, zone, n)[k] == at[j]
    ensures t[j].key != zone && (|t| == TABLE_MAX ==> j > 0)
  {
    var t1 := Room(t, TABLE_MAX);
    var off := |t| - |t1|;
    var i := PoppedBefore(t1, at[off..], zone, k);
    j := off + i;
  }

  lemma RowStays(t: Table, zone: string, now: real, j: nat)
    requires |t| <= TABLE_MAX && Grants(t, zone, now) && j < |t| && (j > 0 || |t| < TABLE_MAX)
    ensures t[j].key in Keys(Reserve(t, zone, now))
  {
    var t1, t' := Room(t, TABLE_MAX), Reserve(t, zone, now);
    var off := |t| - |t1|;
    var i := Index(t1, zone);
    assert t1[j - off] == t[j];
    if t[j].key == zone {
      assert t'[|t'| - 1].key == zone;
    } else {
      assert t'[if j - off < i then j - off else j - off - 1].key == t[j].key;
    }
  }

  lemma LatestKept(t: Table, log: seq<Reservation>, at: seq<nat>, zone: string, now: real)
    requires BudgetOk(t, log, at, now) && Grants(t, zone, now)
    ensures Latest(Reserve(t, zone, now), log + [Reservation(zone, now)], RowsAfter(t, at, zone, |log|))
  {
    var t', at', log' := Reserve(t, zone, now), RowsAfter(t, at, zone, |log|), log + [Reservation(zone, now)];
    RowsKept(t, log, at, zone, now);
    assert t'[|t'| - 1] == Item(zone, now);
    forall k, p | 0 <= k < |t'| && at'[k] < p < |log'| ensures log'[p].zone != t'[k].key && log'[p].zone in Keys(t') {
      RowIsLatest(t, log, at, zone, now, k, p);
    }
  }

  lemma RowIsLatest(t: Table, log: seq<Reservation>, at: seq<nat>, zone: string, now: real, k: nat, p: nat)
    requires BudgetOk(t, log, at, now) && Grants(t, zone, now)
    requires |RowsAfter(t, at, zone, |log|)| == |Reserve(t, zone, now)|
    requires k < |Reserve(t, zone, now)| && RowsAfter(t, at, zone, |log|)[k] < p <= |log|
    ensures var z := if p < |log| then log[p].zone else zone;
      z != Reserve(t, zone, now)[k].key && z in Keys(Reserve(t, zone, now))
  {
    var rest := Pop(Room(t, TABLE_MAX), zone);
    var j := RowBefore(t, at, zone, |log|, k);
    if p < |log| {
      StaysListed(t, log, at, zone, now, j, p);
    } else {
      assert (rest + [Item(zone, now)])[|rest|].key == zone;
    }
  }

  /** A zone reserved after a row that stays has a row that stays, or is the zone reserved now. */
  lemma StaysListed(t: Table, log: seq<Reservation>, at: seq<nat>, zone: string, now: real, j: nat, p: nat)
    requires BudgetOk(t, log, at, now) && Grants(t, zone, now)
    requires j < |t| && (|t| == TABLE_MAX ==> j > 0) && at[j] < p < |log|
    ensures log[p].zone != t[j].key && log[p].zone in Keys(Reserve(t, zone, now))
  {
    if j > 0 {
      assert at[0] < at[j];
    }
    var i :| 0 <= i < |t| && t[i].key == log[p].zone;
    RowStays(t, zone, now, i);
  }

  lemma StillTimely(log: seq<Reservation>, zone: string, now: real)
    requires Timely(log, now)
    ensures Timely(log + [Reservation(zone, now)], now)
  {}

  /** One reservation attempt, granted or not, keeps everything. */
  lemma ReserveKeeps(t: Table, log: seq<Reservation>, at: seq<nat>, zone: string, now: real)
    returns (at': seq<nat>)
    requires BudgetOk(t, log, at, now)
    ensures BudgetOk(Reserve(t, zone, now), Logged(log, t, zone, now), at', now)
  {
    if Grants(t, zone, now) {
      at' := RowsAfter(t, at, zone, |log|);
      RowsKept(t, log, at, zone, now);
      StillTimely(log, zone, now);
      LatestKept(t, log, at, zone, now);
      AllStillAccounted(t, log, at, zone, now);
      StillSpaced(t, log, at, zone, now);
    } else {
      at' := at;
    }
  }

  // ---- when a reservation is granted ----

  /** The zone has been reserved less than a window ago, and fewer than 512 others since. */
  ghost predicate Spent(log: seq<Reservation>, zone: string, now: real) {
    exists p :: 0 <= p < |log| && log[p].zone == zone && now - log[p].at < 3600.0 && |OthersBetween(log, p, |log|)| < 512
  }

  /** The zones reserved after a row's own reservation all have rows as well, which leaves room for 511. */
  lemma FewSince(t: Table, log: seq<Reservation>, at: seq<nat>, now: real, i: nat)
    requires BudgetOk(t, log, at, now) && i < |t|
    ensures |OthersBetween(log, at[i], |log|)| < TABLE_MAX
  {
    var others, rows := OthersBetween(log, at[i], |log|), Keys(t);
    forall z | z in others ensures z in rows - {t[i].key} {
      var q :| at[i] < q < |log| && log[q].zone == z;
    }
    SubsetCount(others, rows - {t[i].key});
    KeysCount(t);
    assert t[i].key in rows;
  }

  /** A refetch is refused exactly when the zone's budget is spent. */
  lemma GrantedExactly(t: Table, log: seq<Reservation>, at: seq<nat>, zone: string, now: real)
    requires BudgetOk(t, log, at, now)
    ensures Logged(log, t, zone, now) == if Spent(log, zone, now) then log else log + [Reservation(zone, now)]
    ensures Grants(t, zone, now) <==> !Spent(log, zone, now)
  {
    if Grants(t, zone, now) {
      if p :| 0 <= p < |log| && log[p].zone == zone && now - log[p].at < 3600.0 && |OthersBetween(log, p, |log|)| < 512 {
        GrantedAgain(t, log, at, now, zone, p);
      }
    } else {
      var i := Index(t, zone);
      FewSince(t, log, at, now, i);
      assert log[at[i]] == Reservation(zone, t[i].val);
    }
  }
}
