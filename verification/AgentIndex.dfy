/** Keeping the index record of a zone: reading, updating, and syncing it with what is published. */
module AgentIndex {
  import opened Wrappers
  import opened Text
  import opened Ordering
  import opened OrderedDict
  import opened ZoneStore
  import opened IndexText

  const INDEX := "_index._agents"

  // ---- reading ----

  /** What the first one that reads as entries reads as. */
  function ReadFirst<T>(xs: seq<T>, read: T -> seq<Entry>): seq<Entry> {
    if xs == [] then [] else if read(xs[0]) != [] then read(xs[0]) else ReadFirst(xs[1..], read)
  }

  function ReadValues(values: seq<string>): seq<Entry> {
    ReadFirst(values, ReadText)
  }

  /** Owners are matched by substring, as listings filter them. */
  function Candidate(item: Item<string, Owner>): seq<Entry> {
    if Contains(item.key, INDEX) && item.val.txt.Some? then ReadValues(item.val.txt.value) else []
  }

  function ReadZone(z: Zone): seq<Entry> {
    ReadFirst(z, Candidate)
  }

  /** A listing that raises before it gets to the index reads as an empty one. */
  function Read(s: Store, answer: Responses, domain: string): (Store, seq<Entry>) {
    var (s1, listing) := List(s, answer, domain);
    (s1, ReadZone(listing.owners))
  }

  method ReadEach(values: seq<string>) returns (entries: seq<Entry>)
    ensures entries == ReadValues(values)
  {
    var i := 0;
    while i < |values|
      invariant 0 <= i <= |values| && ReadValues(values) == ReadValues(values[i..])
    {
      assert values[i..][0] == values[i] && values[i..][1..] == values[i + 1..];
      entries := ReadText(values[i]);
      if entries != [] {
        return;
      }
      i := i + 1;
    }
    entries := [];
  }

  method ReadOwner(item: Item<string, Owner>) returns (entries: seq<Entry>)
    ensures entries == Candidate(item)
  {
    entries := [];
    if Contains(item.key, INDEX) && item.val.txt.Some? {
      entries := ReadEach(item.val.txt.value);
    }
  }

  method ReadOwners(z: Zone) returns (entries: seq<Entry>)
    ensures entries == ReadZone(z)
  {
    var i := 0;
    while i < |z|
      invariant 0 <= i <= |z| && ReadZone(z) == ReadZone(z[i..])
    {
      assert z[i..][0] == z[i] && z[i..][1..] == z[i + 1..];
      entries := ReadOwner(z[i]);
      if entries != [] {
        return;
      }
      i := i + 1;
    }
    entries := [];
  }

  method ReadIndex(b: Backend, domain: string) returns (entries: seq<Entry>)
    modifies b`calls
    ensures (b.Now(), entries) == Read(old(b.Now()), b.answer, domain)
  {
    var listing := b.ListRecords(domain);
    entries := ReadOwners(listing.owners);
  }

  /** No other owner can be taken for the index. */
  ghost predicate Unshadowed(z: Zone) {
    forall i :: 0 <= i < |z| && z[i].key != INDEX ==> Candidate(z[i]) == []
  }

  function OwnIndex(z: Zone): seq<Entry> {
    var o := OwnerIn(z, INDEX);
    if o.txt.Some? then ReadValues(o.txt.value) else []
  }

  lemma IndexContainsItself()
    ensures Contains(INDEX, INDEX)
  {
    ContainsAt(INDEX, INDEX, 0);
  }

  lemma {:induction false} NothingToRead<T>(xs: seq<T>, read: T -> seq<Entry>)
    requires forall i :: 0 <= i < |xs| ==> read(xs[i]) == []
    ensures ReadFirst(xs, read) == []
  {
    if xs != [] {
      NothingToRead(xs[1..], read);
    }
  }

  lemma {:induction false} SomethingToRead(z: Zone, i: nat, read: Item<string, Owner> -> seq<Entry>)
    requires i < |z| && read(z[i]) != []
    ensures ReadFirst(z, read) != []
  {
    if read(z[0]) == [] {
      assert z[1..][i - 1] == z[i];
      SomethingToRead(z[1..], i - 1, read);
    }
  }

  lemma {:induction false} ReadsOwnIndex(z: Zone)
    requires Unique(z) && Unshadowed(z)
    ensures ReadZone(z) == OwnIndex(z)
  {
    if z != [] {
      if z[0].key == INDEX {
        IndexContainsItself();
        NothingToRead(z[1..], Candidate);
      } else {
        assert forall i :: 0 <= i < |z[1..]| ==> z[1..][i] == z[i + 1];
        assert Unshadowed(z[1..]);
        ReadsOwnIndex(z[1..]);
        SameOwner(z, INDEX);
      }
    }
  }

  lemma SameOwner(z: Zone, name: string)
    requires z != [] && z[0].key != name
    ensures OwnerIn(z, name) == OwnerIn(z[1..], name)
  {}

  lemma UniquePut(z: Zone, name: string, o: Owner)
    requires Unique(z)
    ensures Unique(Put(z, name, o))
  {}

  lemma PutKeepsOthers(z: Zone, name: string, o: Owner)
    requires name == INDEX
    ensures Unshadowed(Put(z, name, o)) == Unshadowed(z)
  {
    var i, z' := Index(z, name), Put(z, name, o);
    assert forall j :: 0 <= j < |z| && j != i ==> z'[j] == z[j];
    assert i < |z'| && z'[i].key == name;
    if Unshadowed(z') {
      forall j | 0 <= j < |z| && z[j].key != INDEX ensures Candidate(z[j]) == [] {
        assert z'[j] == z[j];
      }
    }
  }

  function TxtOwner(z: Zone, values: seq<string>): Zone {
    Put(z, INDEX, OwnerIn(z, INDEX).(txt := Some(values)))
  }

  /** What is stored is what is read, for every stored text, exactly when no other owner whose name holds
      the index name carries entries. */
  lemma StoredIsReadExactly(z: Zone)
    requires Unique(z)
    ensures (forall txt: string :: ReadZone(TxtOwner(z, [txt])) == ReadText(txt)) <==> Unshadowed(z)
  {
    if Unshadowed(z) {
      forall txt: string ensures ReadZone(TxtOwner(z, [txt])) == ReadText(txt) {
        ReadsStored(z, txt);
      }
    } else {
      var z' := TxtOwner(z, [HEADER]);
      PutKeepsOthers(z, INDEX, OwnerIn(z, INDEX).(txt := Some([HEADER])));
      var i :| 0 <= i < |z'| && z'[i].key != INDEX && Candidate(z'[i]) != [];
      SomethingToRead(z', i, Candidate);
      EmptyTextReads();
    }
  }

  lemma EmptyTextReads()
    ensures ReadText(HEADER) == []
  {
    EmptyFormat();
    StoredReadsBack([]);
  }

  lemma FirstOfOne<T>(x: T, read: T -> seq<Entry>)
    ensures ReadFirst([x], read) == read(x)
  {
    assert [x][1..] == [];
  }

  lemma ReadOne(txt: string)
    ensures ReadValues([txt]) == ReadText(txt)
  {
    FirstOfOne(txt, ReadText);
  }

  lemma OwnAfter(z: Zone, values: seq<string>)
    ensures OwnIndex(TxtOwner(z, values)) == ReadValues(values)
  {
    PutGet(z, INDEX, OwnerIn(z, INDEX).(txt := Some(values)));
  }

  lemma ReadsStored(z: Zone, txt: string)
    requires Unique(z) && Unshadowed(z)
    ensures ReadZone(TxtOwner(z, [txt])) == ReadText(txt)
  {
    var o := OwnerIn(z, INDEX).(txt := Some([txt]));
    UniquePut(z, INDEX, o);
    PutKeepsOthers(z, INDEX, o);
    ReadsOwnIndex(TxtOwner(z, [txt]));
    OwnAfter(z, [txt]);
    ReadOne(txt);
  }

  // ---- updating ----

  /** One call: what to add and remove, and where the index is served, if to be written too. */
  datatype Update = Update(add: seq<Entry>, remove: seq<Entry>, target: Option<string>, port: string)

  /** What a call returns: the entries of the index and whether it was empty before, or the entries as
      they were read; an invalid target raises. */
  datatype Outcome = Updated(entries: set<Entry>, created: bool) | Failed(entries: set<Entry>) | Invalid

  lemma OneMore(l: seq<Entry>, e: Entry)
    requires NoDuplicates(l) && e !in EntrySet(l)
    ensures NoDuplicates(l + [e]) && EntrySet(l + [e]) == EntrySet(l) + {e}
  {
    assert e !in l;
  }

  /** Some order of a set. */
  ghost function Listed(entries: set<Entry>): (l: seq<Entry>)
    ensures NoDuplicates(l) && EntrySet(l) == entries
  {
    if entries == {} then []
    else
      var e :| e in entries;
      var l := Listed(entries - {e});
      OneMore(l, e);
      l + [e]
  }

  ghost function TextOf(entries: set<Entry>): string {
    Format(Listed(entries))
  }

  lemma AnyListing(l: seq<Entry>)
    requires NoDuplicates(l)
    ensures Format(l) == TextOf(EntrySet(l))
  {
    TextIsTheSet(l, Listed(EntrySet(l)));
  }

  function Changed(entries: set<Entry>, u: Update): set<Entry> {
    (entries + EntrySet(u.add)) - EntrySet(u.remove)
  }

  /** A target name may not be empty or hold an underscore. */
  predicate BadTarget(target: string) {
    target == [] || '_' in target
  }

  function Pointer(target: string, port: string): Svcb {
    Svcb(1, if EndsWith(target, ".") then target else target + ".", [Item("alpn", "h2"), Item("port", port)])
  }

  function WritePointer(s: Store, answer: Responses, domain: string, u: Update): (Store, bool) {
    if u.target.Some? then CreateSvcb(s, answer, domain, INDEX, Pointer(u.target.value, u.port)) else (s, true)
  }

  /** The two writes. */
  function WriteIndex(s: Store, answer: Responses, domain: string, u: Update, txt: string): (Store, bool) {
    var (s1, pointed) := WritePointer(s, answer, domain, u);
    if !pointed then (s1, false) else CreateTxt(s1, answer, domain, INDEX, [txt])
  }

  ghost function Updating(s: Store, answer: Responses, domain: string, u: Update, served: bool): (Store, Outcome) {
    var (s1, current) := Read(s, answer, domain);
    if u.target.Some? && BadTarget(u.target.value) then (s1, Invalid)
    else if !served then (s1, Failed(EntrySet(current)))
    else
      var entries := Changed(EntrySet(current), u);
      var (s2, written) := WriteIndex(s1, answer, domain, u, TextOf(entries));
      (s2, if written then Updated(entries, current == []) else Failed(EntrySet(current)))
  }

  method ListEntries(entries: set<Entry>) returns (l: seq<Entry>)
    ensures NoDuplicates(l) && EntrySet(l) == entries
  {
    var rest := entries;
    l := [];
    while rest != {}
      invariant NoDuplicates(l) && EntrySet(l) + rest == entries && EntrySet(l) !! rest
      decreases |rest|
    {
      var e :| e in rest;
      OneMore(l, e);
      l, rest := l + [e], rest - {e};
    }
  }

  method Change(current: seq<Entry>, u: Update) returns (entries: set<Entry>)
    ensures entries == Changed(EntrySet(current), u)
  {
    entries := set e | e in current;
    var i := 0;
    while i < |u.add|
      invariant 0 <= i <= |u.add| && entries == EntrySet(current) + EntrySet(u.add[..i])
    {
      entries := entries + {u.add[i]};
      i := i + 1;
    }
    i := 0;
    while i < |u.remove|
      invariant 0 <= i <= |u.remove|
      invariant entries == (EntrySet(current) + EntrySet(u.add)) - EntrySet(u.remove[..i])
    {
      entries := entries - {u.remove[i]};
      i := i + 1;
    }
  }

  method UpdateIndex(b: Backend, domain: string, u: Update) returns (r: Outcome)
    modifies b
    ensures (b.Now(), r) == Updating(old(b.Now()), b.answer, domain, u, b.ZoneExists(domain))
  {
    var current := ReadIndex(b, domain);
    var entries := Change(current, u);
    var listed := ListEntries(entries);
    var txt := Format(listed);
    AnyListing(listed);
    if u.target.Some? && BadTarget(u.target.value) {
      return Invalid;
    }
    var before := set e | e in current;
    if !b.ZoneExists(domain) {
      return Failed(before);
    }
    if u.target.Some? {
      var pointed := b.CreateSvcbRecord(domain, INDEX, Pointer(u.target.value, u.port));
      if !pointed {
        return Failed(before);
      }
    }
    var written := b.CreateTxtRecord(domain, INDEX, [txt]);
    r := if written then Updated(entries, current == []) else Failed(before);
  }

  // ---- what a run of updates keeps ----

  /** A zone where only the index owner reads as an index. */
  ghost predicate Good(z: Zone) {
    Unique(z) && Unshadowed(z)
  }

  lemma PointerKeepsIndex(z: Zone, r: Svcb)
    requires Good(z)
    ensures var z' := Put(z, INDEX, OwnerIn(z, INDEX).(svcb := Some(r)));
      Good(z') && ReadZone(z') == ReadZone(z)
  {
    var o := OwnerIn(z, INDEX).(svcb := Some(r));
    UniquePut(z, INDEX, o);
    PutKeepsOthers(z, INDEX, o);
    ReadsOwnIndex(z);
    ReadsOwnIndex(Put(z, INDEX, o));
    PutGet(z, INDEX, o);
  }

  lemma StoringKeepsGood(z: Zone, values: seq<string>)
    requires Good(z)
    ensures Good(TxtOwner(z, values))
  {
    var o := OwnerIn(z, INDEX).(txt := Some(values));
    UniquePut(z, INDEX, o);
    PutKeepsOthers(z, INDEX, o);
  }

  lemma WritePointerKeeps(s: Store, answer: Responses, domain: string, u: Update)
    requires Good(ZoneOf(s.records, domain))
    ensures var z' := ZoneOf(WritePointer(s, answer, domain, u).0.records, domain);
      Good(z') && ReadZone(z') == ReadZone(ZoneOf(s.records, domain))
  {
    if u.target.Some? {
      PointerKeepsIndex(ZoneOf(s.records, domain), Pointer(u.target.value, u.port));
    }
  }

  lemma TxtZone(s: Store, answer: Responses, domain: string, values: seq<string>)
    ensures ZoneOf(CreateTxt(s, answer, domain, INDEX, values).0.records, domain)
         == if Takes(answer(s.calls)) then TxtOwner(ZoneOf(s.records, domain), values) else ZoneOf(s.records, domain)
  {}

  lemma WriteTextReads(s: Store, answer: Responses, domain: string, txt: string)
    requires Good(ZoneOf(s.records, domain))
    ensures var z' := ZoneOf(CreateTxt(s, answer, domain, INDEX, [txt]).0.records, domain);
      Good(z') && ReadZone(z') == if Takes(answer(s.calls)) then ReadText(txt) else ReadZone(ZoneOf(s.records, domain))
  {
    TxtZone(s, answer, domain, [txt]);
    StoringKeepsGood(ZoneOf(s.records, domain), [txt]);
    ReadsStored(ZoneOf(s.records, domain), txt);
  }

  /** What an update starts from. */
  function Basis(s: Store, answer: Responses, domain: string): set<Entry> {
    EntrySet(Read(s, answer, domain).1)
  }

  /** A listing gets as far as the index, or there is none. */
  predicate Reaches(z: Zone, r: Response) {
    match r
    case Raises => OwnIndex(z) == []
    case BreaksOff(n) => OwnIndex(z) == [] || Index(z, INDEX) < n
    case _ => true
  }

  predicate Sees(s: Store, answer: Responses, domain: string) {
    Reaches(ZoneOf(s.records, domain), answer(s.calls))
  }

  lemma PrefixRead(z: Zone, n: nat)
    requires Good(z) && n <= |z|
    ensures ReadZone(z[..n]) == if Index(z, INDEX) < n then ReadZone(z) else []
  {
    ReadsOwnIndex(z);
    assert Good(z[..n]) by {
      forall i | 0 <= i < n && z[..n][i].key != INDEX ensures Candidate(z[..n][i]) == [] {
        assert z[..n][i] == z[i];
      }
    }
    ReadsOwnIndex(z[..n]);
    IndexOfPrefix(z, n);
  }

  lemma IndexOfPrefix(z: Zone, n: nat)
    requires n <= |z|
    ensures OwnerIn(z[..n], INDEX) == if Index(z, INDEX) < n then OwnerIn(z, INDEX) else NOTHING
  {
    var i, j := Index(z, INDEX), Index(z[..n], INDEX);
    if i < n {
      assert z[..n][i] == z[i];
      assert j == i;
    } else {
      assert forall k :: 0 <= k < n ==> z[..n][k] == z[k];
    }
  }

  lemma AbsentIndex(z: Zone)
    requires Index(z, INDEX) == |z|
    ensures OwnIndex(z) == []
  {}

  lemma PartRead(z: Zone, n: nat)
    requires Good(z)
    ensures ReadZone(if n < |z| then z[..n] else z) == if OwnIndex(z) == [] || Index(z, INDEX) < n then ReadZone(z) else []
  {
    ReadsOwnIndex(z);
    if n < |z| {
      PrefixRead(z, n);
    } else if Index(z, INDEX) == |z| {
      AbsentIndex(z);
    }
  }

  lemma YieldedReads(z: Zone, r: Response)
    requires Good(z)
    ensures ReadZone(Yielded(z, r)) == if Reaches(z, r) then ReadZone(z) else []
  {
    match r
    case Raises => ReadsOwnIndex(z);
    case BreaksOff(n) => PartRead(z, n);
    case _ =>
  }

  /** An update starts from the index if its listing sees it, else from nothing. */
  lemma BasisIs(s: Store, answer: Responses, domain: string)
    requires Good(ZoneOf(s.records, domain))
    ensures Basis(s, answer, domain)
         == if Sees(s, answer, domain) then EntrySet(ReadZone(ZoneOf(s.records, domain))) else {}
  {
    YieldedReads(ZoneOf(s.records, domain), answer(s.calls));
    NothingIn([]);
  }

  lemma NothingIn(es: seq<Entry>)
    requires es == []
    ensures EntrySet(es) == {}
  {}

  /** How the backend meets the request that writes the text. */
  function TextAnswer(s: Store, answer: Responses, domain: string, u: Update): Response {
    answer(WritePointer(s, answer, domain, u).0.calls)
  }

  /** Whether the text is written, be it reported or not. */
  predicate CarriedOut(s: Store, answer: Responses, domain: string, u: Update, served: bool) {
    var s1 := s.(calls := s.calls + 1);
    && Accepts(u, served)
    && WritePointer(s1, answer, domain, u).1 && Takes(TextAnswer(s1, answer, domain, u))
  }

  ghost function NewText(s: Store, answer: Responses, domain: string, u: Update): string {
    TextOf(Changed(Basis(s, answer, domain), u))
  }

  /** The zone after an update, the text having been written or not. */
  ghost predicate Left(z: Zone, z': Zone, written: bool, txt: string) {
    Good(z') && ReadZone(z') == if written then ReadText(txt) else ReadZone(z)
  }

  predicate Accepts(u: Update, served: bool) {
    served && (u.target.Some? ==> !BadTarget(u.target.value))
  }

  lemma UpdatingRefused(s: Store, answer: Responses, domain: string, u: Update, served: bool)
    requires !Accepts(u, served)
    ensures var (s', r) := Updating(s, answer, domain, u, served);
      s'.records == s.records && !r.Updated?
  {}

  lemma UpdatingWrites(s: Store, answer: Responses, domain: string, u: Update, served: bool)
    requires Accepts(u, served)
    ensures var (s', r) := Updating(s, answer, domain, u, served);
      (s', r.Updated?) == WriteIndex(s.(calls := s.calls + 1), answer, domain, u, NewText(s, answer, domain, u))
  {}

  lemma AcceptedReads(s: Store, answer: Responses, domain: string, u: Update, served: bool, txt: string, s': Store, updated: bool)
    requires Good(ZoneOf(s.records, domain)) && Accepts(u, served)
    requires (s', updated) == WriteIndex(s.(calls := s.calls + 1), answer, domain, u, txt)
    ensures Left(ZoneOf(s.records, domain), ZoneOf(s'.records, domain), CarriedOut(s, answer, domain, u, served), txt)
    ensures updated
         == (CarriedOut(s, answer, domain, u, served) && !TextAnswer(s.(calls := s.calls + 1), answer, domain, u).Loses?)
  {
    var z, z' := ZoneOf(s.records, domain), ZoneOf(s'.records, domain);
    var s1 := s.(calls := s.calls + 1);
    assert ZoneOf(s1.records, domain) == z;
    IndexReads(s1, answer, domain, u, txt);
    var written := WritePointer(s1, answer, domain, u).1 && Takes(TextAnswer(s1, answer, domain, u));
    assert written == CarriedOut(s, answer, domain, u, served);
    assert Left(z, z', written, txt);
  }

  /** An update that succeeds leaves the text of the changed set to be read; so does one whose last answer
      is lost, and any other leaves the index. */
  lemma UpdateReads(s: Store, answer: Responses, domain: string, u: Update, served: bool)
    requires Good(ZoneOf(s.records, domain))
    ensures var (s', r) := Updating(s, answer, domain, u, served);
      var carriedOut := CarriedOut(s, answer, domain, u, served);
      && Left(ZoneOf(s.records, domain), ZoneOf(s'.records, domain), carriedOut, NewText(s, answer, domain, u))
      && (r.Updated? <==> carriedOut && !TextAnswer(s.(calls := s.calls + 1), answer, domain, u).Loses?)
  {
    if Accepts(u, served) {
      var (s', r) := Updating(s, answer, domain, u, served);
      UpdatingWrites(s, answer, domain, u, served);
      AcceptedReads(s, answer, domain, u, served, NewText(s, answer, domain, u), s', r.Updated?);
    } else {
      UpdatingRefused(s, answer, domain, u, served);
    }
  }

  lemma IndexReads(s: Store, answer: Responses, domain: string, u: Update, txt: string)
    requires Good(ZoneOf(s.records, domain))
    ensures var (s', r) := WriteIndex(s, answer, domain, u, txt);
      var written := WritePointer(s, answer, domain, u).1 && Takes(TextAnswer(s, answer, domain, u));
      && Left(ZoneOf(s.records, domain), ZoneOf(s'.records, domain), written, txt)
      && (r <==> written && !TextAnswer(s, answer, domain, u).Loses?)
  {
    WritePointerKeeps(s, answer, domain, u);
    WriteTextReads(WritePointer(s, answer, domain, u).0, answer, domain, txt);
  }

  ghost predicate AllClean(entries: set<Entry>) {
    forall e :: e in entries ==> Clean(e)
  }

  lemma CleanTextReads(entries: set<Entry>)
    requires AllClean(entries)
    ensures EntrySet(ReadText(TextOf(entries))) == entries
  {
    var l := Listed(entries);
    forall e | e in l ensures Clean(e) && e.1 != [] {
      assert e in EntrySet(l);
    }
    CleanEnd(l);
    StoredReadsBack(l);
  }

  ghost function Run(s: Store, answer: Responses, domain: string, us: seq<Update>, served: bool): Store {
    if us == [] then s
    else Updating(Run(s, answer, domain, us[..|us| - 1], served), answer, domain, us[|us| - 1], served).0
  }

  /** What a set of entries reads as once it is written. */
  ghost function Stored(entries: set<Entry>): set<Entry> {
    EntrySet(ReadText(TextOf(entries)))
  }

  ghost function AsIs(entries: set<Entry>): set<Entry> {
    entries
  }

  ghost function Next(seen: bool, entries: set<Entry>, u: Update, kept: set<Entry> -> set<Entry>): set<Entry> {
    kept(Changed(if seen then entries else {}, u))
  }

  /** The set a run arrives at: each update that is carried out adds and removes its entries, from nothing
      if its own listing did not get as far as the index, and leaves what is kept of the result. */
  ghost function Folded(s: Store, answer: Responses, domain: string, us: seq<Update>, served: bool,
                        kept: set<Entry> -> set<Entry>): set<Entry> {
    if us == [] then EntrySet(ReadZone(ZoneOf(s.records, domain)))
    else
      var before, last := Run(s, answer, domain, us[..|us| - 1], served), us[|us| - 1];
      var entries := Folded(s, answer, domain, us[..|us| - 1], served, kept);
      if CarriedOut(before, answer, domain, last, served) then Next(Sees(before, answer, domain), entries, last, kept)
      else entries
  }

  /** After any run of updates with any entries the index reads as the folded set, each step having gone
      through the text; whatever requests failed on the way, and whatever answers were lost. */
  lemma {:induction false} RunAgrees(s: Store, answer: Responses, domain: string, us: seq<Update>, served: bool)
    requires Good(ZoneOf(s.records, domain))
    ensures var z' := ZoneOf(Run(s, answer, domain, us, served).records, domain);
      Good(z') && EntrySet(ReadZone(z')) == Folded(s, answer, domain, us, served, Stored)
  {
    if us != [] {
      var front, last := us[..|us| - 1], us[|us| - 1];
      RunAgrees(s, answer, domain, front, served);
      var before := Run(s, answer, domain, front, served);
      UpdateReads(before, answer, domain, last, served);
      BasisIs(before, answer, domain);
    }
  }

  lemma ChangedIsClean(entries: set<Entry>, u: Update)
    requires AllClean(entries) && AllClean(EntrySet(u.add))
    ensures AllClean(Changed(entries, u))
  {}

  ghost predicate KeepsClean(kept: set<Entry> -> set<Entry>) {
    forall entries :: AllClean(entries) ==> kept(entries) == entries
  }

  lemma NextIsClean(seen: bool, entries: set<Entry>, u: Update, kept: set<Entry> -> set<Entry>)
    requires AllClean(entries) && AllClean(EntrySet(u.add)) && KeepsClean(kept)
    ensures Next(seen, entries, u, kept) == Next(seen, entries, u, AsIs) && AllClean(Next(seen, entries, u, AsIs))
  {
    ChangedIsClean(if seen then entries else {}, u);
  }

  lemma {:induction false} CleanFold(s: Store, answer: Responses, domain: string, us: seq<Update>, served: bool,
                                     kept: set<Entry> -> set<Entry>)
    requires AllClean(EntrySet(ReadZone(ZoneOf(s.records, domain)))) && KeepsClean(kept)
    requires forall i :: 0 <= i < |us| ==> AllClean(EntrySet(us[i].add))
    ensures Folded(s, answer, domain, us, served, kept) == Folded(s, answer, domain, us, served, AsIs)
    ensures AllClean(Folded(s, answer, domain, us, served, AsIs))
  {
    if us != [] {
      var front, last := us[..|us| - 1], us[|us| - 1];
      CleanFold(s, answer, domain, front, served, kept);
      var seen := Sees(Run(s, answer, domain, front, served), answer, domain);
      NextIsClean(seen, Folded(s, answer, domain, front, served, AsIs), last, kept);
    }
  }

  /** Where everything that is added can be stored and has no final quotation mark, it is kept as it is. */
  lemma CleanRunAgrees(s: Store, answer: Responses, domain: string, us: seq<Update>, served: bool)
    requires Good(ZoneOf(s.records, domain)) && AllClean(EntrySet(ReadZone(ZoneOf(s.records, domain))))
    requires forall i :: 0 <= i < |us| ==> AllClean(EntrySet(us[i].add))
    ensures EntrySet(ReadZone(ZoneOf(Run(s, answer, domain, us, served).records, domain)))
         == Folded(s, answer, domain, us, served, AsIs)
  {
    forall entries | AllClean(entries) ensures Stored(entries) == entries {
      CleanTextReads(entries);
    }
    RunAgrees(s, answer, domain, us, served);
    CleanFold(s, answer, domain, us, served, Stored);
  }

  /** A successful update keeps the entries it was not told to remove exactly when its own listing got as
      far as the index, or it happened to add all of them again. */
  lemma UpdateKeepsExactly(s: Store, answer: Responses, domain: string, u: Update, served: bool)
    requires Good(ZoneOf(s.records, domain)) && AllClean(EntrySet(ReadZone(ZoneOf(s.records, domain))))
    requires AllClean(EntrySet(u.add)) && Updating(s, answer, domain, u, served).1.Updated?
    ensures var before := EntrySet(ReadZone(ZoneOf(s.records, domain)));
      var after := EntrySet(ReadZone(ZoneOf(Updating(s, answer, domain, u, served).0.records, domain)));
      (before - EntrySet(u.remove) <= after) == (Sees(s, answer, domain) || before - EntrySet(u.remove) <= EntrySet(u.add))
  {
    UpdateReads(s, answer, domain, u, served);
    BasisIs(s, answer, domain);
    ReadsOwnIndex(ZoneOf(s.records, domain));
    CleanTextReads(Changed(Basis(s, answer, domain), u));
  }

  lemma TextReadsExactly(entries: set<Entry>)
    ensures EntrySet(ReadText(TextOf(entries))) == entries
       <==> (forall e :: e in entries ==> Storable(e)) && !EndsInQuote(TextOf(entries))
  {
    var l := Listed(entries);
    SetReadsBackExactly(l);
    assert forall e :: e in l <==> e in EntrySet(l);
  }

  lemma UpdateReturns(s: Store, answer: Responses, domain: string, u: Update, served: bool)
    requires Updating(s, answer, domain, u, served).1.Updated?
    ensures Updating(s, answer, domain, u, served).1.entries == Changed(Basis(s, answer, domain), u)
  {}

  /** The entries a successful update returns are those the index then reads as, exactly when all of them
      are storable and their text does not end in a quotation mark. */
  lemma UpdateReturnsExactly(s: Store, answer: Responses, domain: string, u: Update, served: bool)
    requires Good(ZoneOf(s.records, domain)) && Updating(s, answer, domain, u, served).1.Updated?
    ensures var (s', r) := Updating(s, answer, domain, u, served);
      && r.entries == Changed(if Sees(s, answer, domain) then EntrySet(ReadZone(ZoneOf(s.records, domain))) else {}, u)
      && (EntrySet(ReadZone(ZoneOf(s'.records, domain))) == r.entries
          <==> (forall e :: e in r.entries ==> Storable(e)) && !EndsInQuote(TextOf(r.entries)))
  {
    UpdateReturns(s, answer, domain, u, served);
    UpdateReads(s, answer, domain, u, served);
    BasisIs(s, answer, domain);
    TextReadsExactly(Changed(Basis(s, answer, domain), u));
  }

  // ---- what a call returns and writes ----

  /** What a call returns: an invalid target is refused, and otherwise a failure gives the entries as they were
      read, and success those with the additions and without the removals, the latter winning. */
  lemma OutcomeExactly(s: Store, answer: Responses, domain: string, u: Update, served: bool)
    ensures var r, read := Updating(s, answer, domain, u, served).1, EntrySet(Read(s, answer, domain).1);
      && (r.Invalid? <==> u.target.Some? && (u.target.value == [] || '_' in u.target.value))
      && (r.Failed? ==> r.entries == read)
      && (r.Updated? ==> r.entries == (read + EntrySet(u.add)) - EntrySet(u.remove) && (r.created <==> read == {}))
  {
    var es := Read(s, answer, domain).1;
    if es != [] {
      assert es[0] in EntrySet(es);
    }
  }

  /** Where a target is given, success leaves the record that says where the index is served. */
  lemma PointerStored(s: Store, answer: Responses, domain: string, u: Update, served: bool)
    requires Updating(s, answer, domain, u, served).1.Updated? && u.target.Some?
    ensures var dotted := if EndsWith(u.target.value, ".") then u.target.value else u.target.value + ".";
      Look(Updating(s, answer, domain, u, served).0.records, domain, INDEX).svcb
        == Some(Svcb(1, dotted, [Item("alpn", "h2"), Item("port", u.port)]))
  {
    if Accepts(u, served) {
      UpdatingWrites(s, answer, domain, u, served);
      WrittenPointer(s.(calls := s.calls + 1), answer, domain, u, NewText(s, answer, domain, u));
    } else {
      UpdatingRefused(s, answer, domain, u, served);
    }
  }

  lemma WrittenPointer(s: Store, answer: Responses, domain: string, u: Update, txt: string)
    requires WriteIndex(s, answer, domain, u, txt).1 && u.target.Some?
    ensures Look(WriteIndex(s, answer, domain, u, txt).0.records, domain, INDEX).svcb == Some(Pointer(u.target.value, u.port))
  {
    var s1 := WritePointer(s, answer, domain, u).0;
    CreateSvcbEffect(s, answer, domain, INDEX, Pointer(u.target.value, u.port), domain, INDEX);
    Written(s1.records, domain, INDEX, Look(s1.records, domain, INDEX).(txt := Some([txt])), domain, INDEX);
  }

  // ---- which of several texts is read ----

  /** Of several values, or several owners, the first one with entries is read. */
  lemma {:induction false} FirstReads<T>(xs: seq<T>, read: T -> seq<Entry>, i: nat)
    requires i < |xs| && read(xs[i]) != [] && forall j :: 0 <= j < i ==> read(xs[j]) == []
    ensures ReadFirst(xs, read) == read(xs[i])
  {
    if i > 0 {
      assert xs[1..][i - 1] == xs[i] && forall j :: 0 <= j < i - 1 ==> xs[1..][j] == xs[j + 1];
      FirstReads(xs[1..], read, i - 1);
    }
  }

  // ---- an index that is shadowed, and one that is lost ----

  const CHAT: Entry := ("chat", "mcp")

  lemma ChatIsClean()
    ensures Clean(CHAT)
  {
    assert CHAT.0 == "chat" && CHAT.1 == "mcp";
  }

  lemma OneStored(e: Entry)
    requires Clean(e)
    ensures ReadText(Format([e])) == [e]
  {
    CleanEnd([e]);
    StoredReadsBack([e]);
    SortOne(e);
  }

  lemma SortOne(e: Entry)
    ensures Sort([e], PairLe) == [e]
  {
    assert [e][1..] == [];
  }

  const SHADOW: Item<string, Owner> := Item("x." + INDEX, Owner(None, Some([Format([CHAT])])))

  lemma ShadowReads()
    ensures SHADOW.key != INDEX && Candidate(SHADOW) == [CHAT]
  {
    assert SHADOW.key[2..2 + |INDEX|] == INDEX;
    ContainsAt(SHADOW.key, INDEX, 2);
    ChatIsClean();
    OneStored(CHAT);
    ReadOne(Format([CHAT]));
  }

  /** In a zone with the owner `x._index._agents` nothing stored at the index is ever read. */
  lemma ShadowedExample(txt: string)
    ensures ReadZone(TxtOwner([SHADOW], [txt])) == [CHAT]
  {
    ShadowReads();
    assert Index([SHADOW], INDEX) == 1;
    assert TxtOwner([SHADOW], [txt])[0] == SHADOW;
  }

  function FirstRaises(): Responses {
    i => if i == 0 then Raises else Obeys
  }

  lemma WriteObeyed(s: Store, answer: Responses, domain: string, u: Update, txt: string)
    requires u.target.None? && answer(s.calls).Obeys?
    ensures WriteIndex(s, answer, domain, u, txt).1
  {}

  lemma BlindOutcome(s: Store, answer: Responses, domain: string, u: Update)
    requires u.target.None? && answer(s.calls).Raises? && answer(s.calls + 1).Obeys?
    ensures Updating(s, answer, domain, u, true).1 == Updated(Changed({}, u), true)
  {
    NothingIn([]);
    var s1 := s.(calls := s.calls + 1);
    assert Read(s, answer, domain) == (s1, []);
    WriteObeyed(s1, answer, domain, u, TextOf(Changed({}, u)));
  }

  /** An update that changes nothing, made when the zone cannot be listed. */
  lemma BlindUpdate(s: Store, answer: Responses, domain: string, u: Update)
    requires Good(ZoneOf(s.records, domain)) && u.add == [] && u.target.None?
    requires answer(s.calls).Raises? && answer(s.calls + 1).Obeys?
    ensures Updating(s, answer, domain, u, true).1 == Updated({}, true)
    ensures EntrySet(ReadZone(ZoneOf(Updating(s, answer, domain, u, true).0.records, domain))) == {}
  {
    BlindOutcome(s, answer, domain, u);
    assert Changed({}, u) == {};
    UpdateReturnsExactly(s, answer, domain, u, true);
    CleanTextReads({});
    TextReadsExactly({});
  }

  lemma OneInZone(e: Entry)
    requires Clean(e)
    ensures Good(TxtOwner([], [Format([e])])) && ReadZone(TxtOwner([], [Format([e])])) == [e]
  {
    assert Good([]);
    StoringKeepsGood([], [Format([e])]);
    ReadsStored([], Format([e]));
    OneStored(e);
  }

  /** The index holds one agent; an update that changes nothing, but cannot list the zone, reports success
      and leaves it empty. */
  lemma LostExample(domain: string, u: Update)
    requires u == Update([], [], None, "443")
    ensures var z := TxtOwner([], [Format([CHAT])]);
      var (s', r) := Updating(Store(map[domain := z], 0), FirstRaises(), domain, u, true);
      ReadZone(z) == [CHAT] && r == Updated({}, true) && EntrySet(ReadZone(ZoneOf(s'.records, domain))) == {}
  {
    ChatIsClean();
    OneInZone(CHAT);
    BlindUpdate(Store(map[domain := TxtOwner([], [Format([CHAT])])], 0), FirstRaises(), domain, u);
  }
}
