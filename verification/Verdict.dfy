/** From key sets to a verdict: which keys are tried, in which order, and what the attempts add up to.
    What one key says about the signature is a parameter; `Jws` supplies it. */
module Verdict {
  import opened Wrappers

  type PublicKey = nat

  /** One entry of a key set; `key` is absent when the entry cannot be imported as a P-256 key. */
  datatype Jwk = NotAnObject | Jwk(kid: Option<string>, key: Option<PublicKey>)

  /** What checking a signature against one key concludes. */
  datatype Check<+P> = Accepted(payload: P) | Lapsed | Rejected

  datatype Verdict<+P> = Verified(payload: P) | Expired | Invalid | NoKey

  function Final<P>(c: Check<P>): Verdict<P> {
    match c
    case Accepted(p) => Verified(p)
    case Lapsed => Expired
    case Rejected => Invalid
  }

  predicate Tries(j: Jwk, kid: Option<string>) {
    j.Jwk? && (kid.None? || j.kid == kid)
  }

  /** The entries to try: all objects, or those that carry the named key id. */
  function CandidateKeys(keys: seq<Jwk>, kid: Option<string>): seq<Jwk> {
    if keys == [] then []
    else if Tries(keys[0], kid) then [keys[0]] + CandidateKeys(keys[1..], kid)
    else CandidateKeys(keys[1..], kid)
  }

  /** The outcome of trying candidates in order; None when none is usable. */
  function Against<P>(keys: seq<Jwk>, check: PublicKey -> Check<P>): Option<Check<P>> {
    if keys == [] then None
    else if keys[0].NotAnObject? || keys[0].key.None? then Against(keys[1..], check)
    else
      var c := check(keys[0].key.value);
      if !c.Rejected? then Some(c)
      else
        var rest := Against(keys[1..], check);
        if rest.Some? then rest else Some(c)
  }

  /** Try the candidates; the first that accepts, or finds the signature lapsed, decides. */
  method VerifyAgainst<P>(keys: seq<Jwk>, kid: Option<string>, check: PublicKey -> Check<P>)
    returns (result: Option<Check<P>>)
    ensures result == Against(CandidateKeys(keys, kid), check)
  {
    var candidates := CandidateKeys(keys, kid);
    var triedAny := false;
    var i := 0;
    while i < |candidates|
      invariant 0 <= i <= |candidates|
      invariant Against(candidates, check)
        == (var rest := Against(candidates[i..], check);
            if rest.Some? || !triedAny then rest else Some(Rejected))
    {
      var j := candidates[i];
      assert candidates[i..][1..] == candidates[i + 1..];
      i := i + 1;
      if j.NotAnObject? || j.key.None? {
        continue;
      }
      triedAny := true;
      var c := check(j.key.value);
      if !c.Rejected? {
        return Some(c);
      }
    }
    result := if triedAny then Some(Rejected) else None;
  }

  /** A success, or a signature that some key verified and that has merely lapsed. */
  predicate IsPositive<P>(r: Option<Check<P>>) {
    r.Some? && !r.value.Rejected?
  }

  /** A pass over one document: by key id, then over all keys but accepting only a positive answer.
      The second component says that real keys rejected the signature. */
  function Pass<P>(keys: seq<Jwk>, kid: Option<string>, check: PublicKey -> Check<P>): (Option<Check<P>>, bool) {
    var named := Against(CandidateKeys(keys, kid), check);
    if named.Some? || kid.None? then (named, false)
    else
      var all := Against(CandidateKeys(keys, None), check);
      if IsPositive(all) then (all, false) else (None, all.Some?)
  }

  /** Whether the refetched document is looked at. */
  predicate Consults<P>(doc: Option<seq<Jwk>>, kid: Option<string>, budget: bool, refetched: Option<seq<Jwk>>,
                        check: PublicKey -> Check<P>) {
    doc.Some? && kid.Some? && Pass(doc.value, kid, check).0.None? && budget && refetched.Some?
  }

  function Decide<P>(doc: Option<seq<Jwk>>, kid: Option<string>, budget: bool, refetched: Option<seq<Jwk>>,
                     check: PublicKey -> Check<P>): Verdict<P> {
    if doc.None? then NoKey
    else
      var (first, rejected) := Pass(doc.value, kid, check);
      if first.Some? then Final(first.value)
      else
        var (second, rejectedAgain) :=
          if Consults(doc, kid, budget, refetched, check) then Pass(refetched.value, kid, check) else (None, false);
        if second.Some? then Final(second.value)
        else if rejected || rejectedAgain then Invalid
        else NoKey
  }

  /** The verification of one record: the cached document, then at most one forced refetch.
      A document without a key list counts as no document. */
  method VerifyRecord<P>(doc: Option<seq<Jwk>>, kid: Option<string>, budget: bool, refetched: Option<seq<Jwk>>,
                         check: PublicKey -> Check<P>)
    returns (verdict: Verdict<P>)
    ensures verdict == Decide(doc, kid, budget, refetched, check)
  {
    if doc.None? {
      return NoKey;
    }
    var rejectedByARealKey := false;
    var result := VerifyAgainst(doc.value, kid, check);
    if result.None? && kid.Some? {
      var fallback := VerifyAgainst(doc.value, None, check);
      if IsPositive(fallback) {
        result := fallback;
      } else if fallback.Some? {
        rejectedByARealKey := true;
      }
    }
    if result.None? && kid.Some? && budget && refetched.Some? {
      result := VerifyAgainst(refetched.value, kid, check);
      if result.None? {
        var fallback := VerifyAgainst(refetched.value, None, check);
        if IsPositive(fallback) {
          result := fallback;
        } else if fallback.Some? {
          rejectedByARealKey := true;
        }
      }
    }
    if result.None? {
      verdict := if kid.Some? && rejectedByARealKey then Invalid else NoKey;
    } else {
      verdict := Final(result.value);
    }
  }

  // ---- what a list of candidates means, irrespective of its order ----

  /** The importable keys among the entries that `kid` selects. */
  ghost function Usable(keys: seq<Jwk>, kid: Option<string>): set<PublicKey> {
    set i | 0 <= i < |keys| && Tries(keys[i], kid) && keys[i].key.Some? :: keys[i].key.value
  }

  /** All keys that do not reject say the same thing: it depends on the signature, not on the key. */
  ghost predicate Uniform<P(!new)>(check: PublicKey -> Check<P>) {
    forall a, b :: !check(a).Rejected? && !check(b).Rejected? ==> check(a) == check(b)
  }

  /** `r` is the outcome of trying the set `ks`. */
  ghost predicate Outcome<P>(ks: set<PublicKey>, check: PublicKey -> Check<P>, r: Option<Check<P>>) {
    && (r.None? <==> ks == {})
    && (IsPositive(r) ==> exists k :: k in ks && check(k) == r.value)
    && (r == Some(Rejected) ==> forall k :: k in ks ==> check(k).Rejected?)
  }

  lemma {:induction false} UsableStep(keys: seq<Jwk>, kid: Option<string>)
    requires keys != []
    ensures Usable(keys, kid) ==
      (if Tries(keys[0], kid) && keys[0].key.Some? then {keys[0].key.value} else {}) + Usable(keys[1..], kid)
  {
    var rest := keys[1..];
    assert forall i :: 1 <= i < |keys| ==> keys[i] == rest[i - 1];
    forall k | k in Usable(keys, kid)
      ensures k in (if Tries(keys[0], kid) && keys[0].key.Some? then {keys[0].key.value} else {}) + Usable(rest, kid)
    {
      var i :| 0 <= i < |keys| && Tries(keys[i], kid) && keys[i].key.Some? && keys[i].key.value == k;
      if i > 0 {
        assert rest[i - 1] == keys[i];
      }
    }
    forall k | k in Usable(rest, kid) ensures k in Usable(keys, kid) {
      var i :| 0 <= i < |rest| && Tries(rest[i], kid) && rest[i].key.Some? && rest[i].key.value == k;
      assert keys[i + 1] == rest[i];
    }
  }

  lemma {:induction false} AgainstOutcome<P>(keys: seq<Jwk>, kid: Option<string>, check: PublicKey -> Check<P>)
    ensures Outcome(Usable(keys, kid), check, Against(CandidateKeys(keys, kid), check))
  {
    if keys != [] {
      AgainstOutcome(keys[1..], kid, check);
      UsableStep(keys, kid);
      if Tries(keys[0], kid) {
        assert CandidateKeys(keys, kid)[1..] == CandidateKeys(keys[1..], kid);
      }
    }
  }

  lemma OutcomeUnique<P(!new)>(ks: set<PublicKey>, check: PublicKey -> Check<P>, r: Option<Check<P>>, q: Option<Check<P>>)
    requires Uniform(check) && Outcome(ks, check, r) && Outcome(ks, check, q)
    ensures r == q
  {}

  /** Everything a verdict was based on. */
  ghost function ConsultedKeys<P>(doc: Option<seq<Jwk>>, kid: Option<string>, budget: bool, refetched: Option<seq<Jwk>>,
                                  check: PublicKey -> Check<P>): set<PublicKey> {
    (if doc.Some? then Usable(doc.value, None) else {})
    + (if Consults(doc, kid, budget, refetched, check) then Usable(refetched.value, None) else {})
  }

  lemma NamedIsSome(keys: seq<Jwk>, kid: Option<string>)
    ensures Usable(keys, kid) <= Usable(keys, None)
  {
    forall k | k in Usable(keys, kid) ensures k in Usable(keys, None) {
      var i :| 0 <= i < |keys| && Tries(keys[i], kid) && keys[i].key.Some? && keys[i].key.value == k;
      assert Tries(keys[i], None);
    }
  }

  lemma PassMeans<P>(keys: seq<Jwk>, kid: Option<string>, check: PublicKey -> Check<P>)
    ensures var (r, rejected) := Pass(keys, kid, check);
      && (r.None? && !rejected <==> Usable(keys, None) == {})
      && (IsPositive(r) ==> exists k :: k in Usable(keys, None) && check(k) == r.value)
  {
    AgainstOutcome(keys, kid, check);
    AgainstOutcome(keys, None, check);
    NamedIsSome(keys, kid);
  }

  // ---- characterisation ----

  /** "Unknown" is reported exactly when no consulted document holds an importable key. */
  lemma NoKeyExactly<P>(doc: Option<seq<Jwk>>, kid: Option<string>, budget: bool, refetched: Option<seq<Jwk>>,
                        check: PublicKey -> Check<P>)
    ensures Decide(doc, kid, budget, refetched, check) == NoKey
       <==> ConsultedKeys(doc, kid, budget, refetched, check) == {}
  {
    if doc.Some? {
      PassMeans(doc.value, kid, check);
      if refetched.Some? {
        PassMeans(refetched.value, kid, check);
      }
    }
  }

  /** A positive verdict is some consulted key's own conclusion. */
  lemma PositiveIsSound<P>(doc: Option<seq<Jwk>>, kid: Option<string>, budget: bool, refetched: Option<seq<Jwk>>,
                           check: PublicKey -> Check<P>)
    requires var v := Decide(doc, kid, budget, refetched, check); v.Verified? || v.Expired?
    ensures exists k :: k in ConsultedKeys(doc, kid, budget, refetched, check)
                     && Final(check(k)) == Decide(doc, kid, budget, refetched, check)
  {
    PassMeans(doc.value, kid, check);
    if refetched.Some? {
      PassMeans(refetched.value, kid, check);
    }
  }

  lemma SameEntriesSameKeys(a: seq<Jwk>, b: seq<Jwk>, kid: Option<string>)
    requires multiset(a) == multiset(b)
    ensures Usable(a, kid) <= Usable(b, kid)
  {
    forall k | k in Usable(a, kid) ensures k in Usable(b, kid) {
      var i :| 0 <= i < |a| && Tries(a[i], kid) && a[i].key.Some? && a[i].key.value == k;
      assert a[i] in multiset(b);
      var j :| 0 <= j < |b| && b[j] == a[i];
    }
  }

  lemma PassUnordered<P(!new)>(a: seq<Jwk>, b: seq<Jwk>, kid: Option<string>, check: PublicKey -> Check<P>)
    requires Uniform(check) && multiset(a) == multiset(b)
    ensures Pass(a, kid, check) == Pass(b, kid, check)
  {
    forall id ensures Against(CandidateKeys(a, id), check) == Against(CandidateKeys(b, id), check) {
      SameEntriesSameKeys(a, b, id);
      SameEntriesSameKeys(b, a, id);
      AgainstOutcome(a, id, check);
      AgainstOutcome(b, id, check);
      OutcomeUnique(Usable(a, id), check, Against(CandidateKeys(a, id), check), Against(CandidateKeys(b, id), check));
    }
  }

  /** The order in which a publisher lists its keys does not matter. */
  lemma VerdictUnordered<P(!new)>(a: seq<Jwk>, b: seq<Jwk>, ra: seq<Jwk>, rb: seq<Jwk>, refetches: bool,
                                  kid: Option<string>, budget: bool, check: PublicKey -> Check<P>)
    requires Uniform(check) && multiset(a) == multiset(b) && multiset(ra) == multiset(rb)
    ensures Decide(Some(a), kid, budget, if refetches then Some(ra) else None, check)
         == Decide(Some(b), kid, budget, if refetches then Some(rb) else None, check)
  {
    PassUnordered(a, b, kid, check);
    PassUnordered(ra, rb, kid, check);
  }

  /** A spent budget changes no verdict when the refetch would have brought nothing new. */
  lemma BudgetIrrelevant<P>(doc: Option<seq<Jwk>>, kid: Option<string>, refetched: Option<seq<Jwk>>, check: PublicKey -> Check<P>)
    requires refetched.None? || refetched == doc
    ensures Decide(doc, kid, true, refetched, check) == Decide(doc, kid, false, refetched, check)
  {}

  /** The named entry is present and usable, all keys of that name reject, and another key does not. */
  ghost predicate KidMisleads<P>(keys: seq<Jwk>, kid: string, check: PublicKey -> Check<P>) {
    && Usable(keys, Some(kid)) != {}
    && (forall k :: k in Usable(keys, Some(kid)) ==> check(k).Rejected?)
    && (exists k :: k in Usable(keys, None) && !check(k).Rejected?)
  }

  /** A key id is only a hint: without a refetch it changes the verdict in exactly one situation. */
  lemma KidIsAHint<P(!new)>(keys: seq<Jwk>, kid: string, check: PublicKey -> Check<P>)
    requires Uniform(check)
    ensures Decide(Some(keys), Some(kid), false, None, check) != Decide(Some(keys), None, false, None, check)
       <==> KidMisleads(keys, kid, check)
  {
    var named, all := Against(CandidateKeys(keys, Some(kid)), check), Against(CandidateKeys(keys, None), check);
    AgainstOutcome(keys, Some(kid), check);
    AgainstOutcome(keys, None, check);
    NamedIsSome(keys, Some(kid));
    if IsPositive(named) {
      OutcomeUnique(Usable(keys, None), check, all, named);
    }
  }

  function OnlyAccepts<P>(key: PublicKey, payload: P): PublicKey -> Check<P> {
    k => if k == key then Accepted(payload) else Rejected
  }

  lemma OneCandidate(k: Jwk, kid: Option<string>)
    ensures CandidateKeys([k], kid) == if Tries(k, kid) then [k] else []
  {
    assert [k][1..] == [];
  }

  /** Two published keys, and a signature made with the one it does not name: invalid by its key id,
      verified without one. */
  lemma MisleadingKidExample<P(!new)>(payload: P)
    ensures var keys := [Jwk(Some("old"), Some(1)), Jwk(Some("new"), Some(2))];
      var check := OnlyAccepts(2, payload);
      && Uniform(check) && KidMisleads(keys, "old", check)
      && Decide(Some(keys), Some("old"), false, None, check) == Invalid
      && Decide(Some(keys), None, false, None, check) == Verified(payload)
  {
    var k1, k2 := Jwk(Some("old"), Some(1)), Jwk(Some("new"), Some(2));
    var keys := [k1, k2];
    var check := OnlyAccepts(2, payload);
    assert "old" != "new";
    assert keys[1..] == [k2];
    OneCandidate(k2, Some("old"));
    OneCandidate(k2, None);
    assert CandidateKeys(keys, Some("old")) == [k1];
    assert CandidateKeys(keys, None) == [k1, k2];
    assert Against([k2], check) == Some(Accepted(payload));
    AgainstOutcome(keys, Some("old"), check);
    assert keys[0].key == Some(1);
    assert 2 in Usable(keys, None) by {
      assert keys[1].key == Some(2);
    }
  }

  // ---- what a verdict is, from the key sets alone ----

  /** Some key of the set does not reject. */
  ghost predicate Vouches<P>(ks: set<PublicKey>, check: PublicKey -> Check<P>) {
    exists k :: k in ks && !check(k).Rejected?
  }

  /** `v` is what trying all of a set of keys comes to. */
  ghost predicate Says<P>(ks: set<PublicKey>, check: PublicKey -> Check<P>, v: Verdict<P>) {
    if Vouches(ks, check) then exists k :: k in ks && !check(k).Rejected? && v == Final(check(k))
    else v == if ks == {} then NoKey else Invalid
  }

  lemma AgainstSays<P>(keys: seq<Jwk>, kid: Option<string>, check: PublicKey -> Check<P>)
    ensures var r := Against(CandidateKeys(keys, kid), check);
      && Says(Usable(keys, kid), check, if r.Some? then Final(r.value) else NoKey)
      && (IsPositive(r) <==> Vouches(Usable(keys, kid), check))
      && (r.None? <==> Usable(keys, kid) == {})
  {
    AgainstOutcome(keys, kid, check);
  }

  /** What one document says: its keys of that name if any is usable, else all of its keys. */
  ghost function Relevant(keys: seq<Jwk>, kid: Option<string>): set<PublicKey> {
    if Usable(keys, kid) != {} then Usable(keys, kid) else Usable(keys, None)
  }

  /** The cached document leaves it open: no usable key carries the name asked for, and none vouches. */
  ghost predicate LeavesOpen<P>(keys: seq<Jwk>, kid: Option<string>, check: PublicKey -> Check<P>) {
    kid.Some? && Usable(keys, kid) == {} && !Vouches(Usable(keys, None), check)
  }

  lemma PassSays<P>(keys: seq<Jwk>, kid: Option<string>, check: PublicKey -> Check<P>)
    ensures var (r, rejected) := Pass(keys, kid, check);
      && (r.None? <==> LeavesOpen(keys, kid, check) || (kid.None? && Usable(keys, None) == {}))
      && (r.Some? ==> Says(Relevant(keys, kid), check, Final(r.value)))
      && (r.None? ==> rejected == (Usable(keys, None) != {}))
  {
    AgainstSays(keys, kid, check);
    AgainstSays(keys, None, check);
  }

  /** Without a refetch the verdict is what the relevant keys of the document say. */
  lemma DocumentDecides<P>(keys: seq<Jwk>, kid: Option<string>, budget: bool, refetched: Option<seq<Jwk>>,
                           check: PublicKey -> Check<P>)
    requires !LeavesOpen(keys, kid, check) || !budget || refetched.None?
    ensures Says(Relevant(keys, kid), check, Decide(Some(keys), kid, budget, refetched, check))
  {
    PassSays(keys, kid, check);
  }

  /** Where the document leaves it open and there is budget left, the verdict is what the relevant keys of
      the refetched document say; but if neither document has a key that vouches, any usable key in either
      makes the signature invalid. */
  lemma RefetchDecides<P>(keys: seq<Jwk>, kid: Option<string>, refetched: seq<Jwk>, check: PublicKey -> Check<P>)
    requires LeavesOpen(keys, kid, check)
    ensures var v, ks := Decide(Some(keys), kid, true, Some(refetched), check), Relevant(refetched, kid);
      if ks == {} && Usable(keys, None) != {} then v == Invalid else Says(ks, check, v)
  {
    PassSays(keys, kid, check);
    PassSays(refetched, kid, check);
    NamedIsSome(refetched, kid);
  }

  /** No document: no key. */
  lemma NoDocument<P>(kid: Option<string>, budget: bool, refetched: Option<seq<Jwk>>, check: PublicKey -> Check<P>)
    ensures Decide(None, kid, budget, refetched, check) == NoKey
  {}

  /** Some two documents that could be refetched lead to different verdicts. */
  ghost predicate RefetchMatters<P(!new)>(doc: Option<seq<Jwk>>, kid: Option<string>, budget: bool, check: PublicKey -> Check<P>) {
    exists a, b :: Decide(doc, kid, budget, Some(a), check) != Decide(doc, kid, budget, Some(b), check)
  }

  /** The document refetched makes a difference exactly if there is budget, a key id is given and the cached
      document leaves it open; and some key would vouch, unless the cached document has no usable key. */
  lemma RefetchMattersExactly<P(!new)>(doc: Option<seq<Jwk>>, kid: Option<string>, budget: bool, check: PublicKey -> Check<P>)
    ensures RefetchMatters(doc, kid, budget, check)
       <==> budget && doc.Some? && LeavesOpen(doc.value, kid, check)
            && (Usable(doc.value, None) == {} || exists k :: !check(k).Rejected?)
  {
    if budget && doc.Some? && LeavesOpen(doc.value, kid, check) {
      var keys := doc.value;
      NothingUsable(kid);
      RefetchDecides(keys, kid, [], check);
      if k :| !check(k).Rejected? {
        OneUsable(k, kid);
        RefetchDecides(keys, kid, [Jwk(kid, Some(k))], check);
      } else if Usable(keys, None) == {} {
        OneUsable(0, kid);
        RefetchDecides(keys, kid, [Jwk(kid, Some(0))], check);
      } else {
        forall a ensures Decide(doc, kid, budget, Some(a), check) == Invalid {
          RefetchDecides(keys, kid, a, check);
        }
      }
    } else {
      forall a, b ensures Decide(doc, kid, budget, Some(a), check) == Decide(doc, kid, budget, Some(b), check) {
        if doc.Some? {
          PassSays(doc.value, kid, check);
        }
      }
    }
  }

  lemma NothingUsable(kid: Option<string>)
    ensures Usable([], kid) == {} && Relevant([], kid) == {}
  {}

  lemma OneUsable(k: PublicKey, kid: Option<string>)
    ensures Usable([Jwk(kid, Some(k))], kid) == {k} && Relevant([Jwk(kid, Some(k))], kid) == {k}
  {
    var j := Jwk(kid, Some(k));
    assert [j][0] == j && Tries(j, kid);
    forall x ensures x in Usable([j], kid) <==> x == k {}
  }

  /** A key rollover: the cached set has the old key, the zone now publishes the new one. */
  lemma RolloverExample<P(!new)>(payload: P)
    ensures var cached, now := [Jwk(Some("old"), Some(1))], [Jwk(Some("new"), Some(2))];
      var check := OnlyAccepts(2, payload);
      && Decide(Some(cached), Some("new"), true, Some(now), check) == Verified(payload)
      && Decide(Some(cached), Some("new"), false, Some(now), check) == Invalid
  {
    var cached, now := [Jwk(Some("old"), Some(1))], [Jwk(Some("new"), Some(2))];
    var check := OnlyAccepts(2, payload);
    OneUsable(2, Some("new"));
    OldOnly(Some("new"));
    RefetchDecides(cached, Some("new"), now, check);
    DocumentDecides(cached, Some("new"), false, Some(now), check);
  }

  lemma OldOnly(kid: Option<string>)
    requires kid == Some("new")
    ensures Usable([Jwk(Some("old"), Some(1))], kid) == {} && Usable([Jwk(Some("old"), Some(1))], None) == {1}
  {
    var j := Jwk(Some("old"), Some(1));
    assert "old"[0] != "new"[0];
    assert [j][0] == j && Tries(j, None) && !Tries(j, kid);
    forall x ensures x in Usable([j], None) <==> x == 1 {}
  }
}
