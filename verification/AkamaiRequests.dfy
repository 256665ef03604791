/** Requests to a service that locks a zone while it changes (Akamai Edge DNS). */
module AkamaiRequests {
  import opened Wrappers
  import opened Text

  const MAX_RETRIES: nat := 5
  const BASE_DELAY: real := 0.5
  const MAX_JITTER: real := 0.25

  datatype Verb = GET | POST | PUT | DELETE

  /** A response; `busy` is the zone-lock refusal among the conflicts. */
  datatype Answer = Transport | Answer(status: int, busy: bool, empty: bool)

  /** What a caller gets: nothing found, an empty or a parsed body, or an error. */
  datatype Result = NotFound | Empty | Parsed | Raised

  predicate Conflict(a: Answer) {
    a.Answer? && a.status == 409
  }

  /** "Already exists" on a single record set. */
  predicate Converts(verb: Verb, path: string, a: Answer) {
    verb == POST && Contains(path, "/names/") && Conflict(a) && !a.busy
  }

  predicate Locked(a: Answer) {
    Conflict(a) && a.busy
  }

  /** What the last response means to the caller. */
  function Interpret(verb: Verb, a: Answer): Result {
    if a.Transport? then Raised
    else if a.status == 404 then (if verb == POST || verb == PUT then Raised else NotFound)
    else if a.status < 200 || a.status >= 300 then Raised
    else if a.empty then Empty else Parsed
  }

  /** Exactly when each result is reported: a missing record is an answer to a read or a deletion and an
      error for a write; any other status outside 200 to 299 is an error. */
  lemma InterpretExactly(verb: Verb, a: Answer)
    ensures Interpret(verb, a) == NotFound <==> a.Answer? && a.status == 404 && (verb == GET || verb == DELETE)
    ensures Interpret(verb, a) == Empty <==> a.Answer? && 200 <= a.status <= 299 && a.empty
    ensures Interpret(verb, a) == Parsed <==> a.Answer? && 200 <= a.status <= 299 && !a.empty
  {}

  /** A conflict is one of two kinds: the zone is busy, which is worth another try whatever the request, or
      a create on a path for one name met a record set that is there, which makes it an update. */
  lemma ConflictsExactly(verb: Verb, path: string, status: int, busy: bool, empty: bool)
    ensures Locked(Answer(status, busy, empty)) <==> status == 409 && busy
    ensures Converts(verb, path, Answer(status, busy, empty))
       <==> verb == POST && status == 409 && !busy && exists i: nat :: At(path, "/names/", i)
  {
    if i: nat :| At(path, "/names/", i) {
      ContainsAt(path, "/names/", i);
    }
    if Contains(path, "/names/") {
      assert At(path, "/names/", Find(path, "/names/"));
    }
  }

  function Pow2(n: nat): nat {
    if n == 0 then 1 else 2 * Pow2(n - 1)
  }

  /** Backoff before retry `attempt`, without jitter. */
  function Backoff(attempt: nat): real {
    BASE_DELAY * Pow2(attempt) as real
  }

  /** What a round has waited before send `n`: half a second, doubled each time, and the jitter. */
  function Waited(jitter: nat -> real, n: nat): real {
    if n == 0 then 0.0 else Waited(jitter, n - 1) + 0.5 * Pow2(n - 1) as real + jitter(n - 1)
  }

  /** All backoff before retry `attempt`, with the most jitter there can be. */
  function MostSleep(attempt: nat): real {
    BASE_DELAY * (Pow2(attempt) - 1) as real + MAX_JITTER * attempt as real
  }

  lemma SleepBound(a: nat)
    ensures MostSleep(a) + Backoff(a) + MAX_JITTER == MostSleep(a + 1)
    ensures a <= MAX_RETRIES ==> MostSleep(a) <= 16.75
  {
    assert Pow2(a + 1) == 2 * Pow2(a);
    if a <= MAX_RETRIES {
      assert Pow2(0) == 1 && Pow2(1) == 2 && Pow2(2) == 4 && Pow2(3) == 8 && Pow2(4) == 16 && Pow2(5) == 32;
    }
  }

  /** One round: send until the zone is not locked or the retries are used up. `answers(i)` is the
      i-th response overall, `jitter(i)` the noise added to the i-th wait of a round. */
  method Round(answers: nat -> Answer, jitter: nat -> real, from: nat) returns (last: Answer, sends: nat, slept: real)
    requires forall i: nat :: 0.0 <= jitter(i) <= MAX_JITTER
    ensures 1 <= sends <= 6 && 0.0 <= slept <= 16.75 && slept == Waited(jitter, sends - 1)
    ensures last == answers(from + sends - 1)
    ensures forall i: nat :: from <= i < from + sends - 1 ==> Locked(answers(i))
    ensures Locked(last) ==> sends == 6
  {
    var attempt := 0;
    slept := 0.0;
    while true
      invariant 0 <= attempt <= MAX_RETRIES
      invariant 0.0 <= slept <= MostSleep(attempt) && slept == Waited(jitter, attempt)
      invariant forall i: nat :: from <= i < from + attempt ==> Locked(answers(i))
      decreases MAX_RETRIES - attempt
    {
      last := answers(from + attempt);
      SleepBound(attempt);
      if !Locked(last) || attempt >= MAX_RETRIES {
        return last, attempt + 1, slept;
      }
      slept := slept + Backoff(attempt) + jitter(attempt);
      attempt := attempt + 1;
    }
  }

  /** How often and how long a request may try: a create on a single record set has two rounds. */
  function Rounds(verb: Verb, path: string): nat {
    if verb == POST && Contains(path, "/names/") then 2 else 1
  }

  /** Send a request; a create that meets an existing record set becomes an update, with a fresh retry
      allowance, and no other request changes its verb. `converted` is the response
      that caused it. */
  method Request(verb: Verb, path: string, answers: nat -> Answer, jitter: nat -> real, from: nat)
    returns (result: Result, sends: nat, slept: real, converted: Option<nat>)
    requires forall i: nat :: 0.0 <= jitter(i) <= MAX_JITTER
    ensures 1 <= sends <= if Rounds(verb, path) == 2 then 12 else 6
    ensures converted.Some? ==> from <= converted.value < from + sends - 1 && Converts(verb, path, answers(converted.value))
    ensures 0.0 <= slept <= if Rounds(verb, path) == 2 then 33.5 else 16.75
    ensures converted.None? ==> slept == Waited(jitter, sends - 1)
    ensures converted.Some? ==>
      slept == Waited(jitter, converted.value - from) + Waited(jitter, from + sends - 2 - converted.value)
    ensures result == Interpret(if converted.Some? then PUT else verb, answers(from + sends - 1))
    ensures converted.None? ==> !Converts(verb, path, answers(from + sends - 1))
    ensures forall i: nat :: from <= i < from + sends - 1 && converted != Some(i) ==> Locked(answers(i))
    decreases if verb == POST then 1 else 0
  {
    var last, n, wait := Round(answers, jitter, from);
    if Converts(verb, path, last) {
      assert Rounds(verb, path) == 2 && Rounds(PUT, path) == 1 && forall a :: !Converts(PUT, path, a);
      var more, moreWait, again;
      result, more, moreWait, again := Request(PUT, path, answers, jitter, from + n);
      sends, slept, converted := n + more, wait + moreWait, Some(from + n - 1);
    } else {
      result, sends, slept, converted := Interpret(verb, last), n, wait, None;
    }
  }
}
