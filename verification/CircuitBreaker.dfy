/** The per-agent circuit breaker: a state that is moved on lazily, by whoever looks at it. */
module CircuitBreaker {

  datatype Phase = Closed | Open | HalfOpen

  datatype Circuit = Circuit(failures: nat, lastFailure: real, phase: Phase)

  /** The calls made, with the clock reading of those that take one. */
  datatype Call = Success(fqdn: string) | Failure(fqdn: string, at: real) | Query(fqdn: string, at: real)

  // ---- what the answer should be, read off the calls ----

  /** Failures since the last success. */
  function Failures(calls: seq<Call>, fqdn: string): nat {
    if calls == [] then 0
    else
      var before, last := calls[..|calls| - 1], calls[|calls| - 1];
      if last.fqdn != fqdn || last.Query? then Failures(before, fqdn)
      else if last.Success? then 0
      else Failures(before, fqdn) + 1
  }

  function LastFailure(calls: seq<Call>, fqdn: string): real {
    if calls == [] then 0.0
    else
      var before, last := calls[..|calls| - 1], calls[|calls| - 1];
      if last.Failure? && last.fqdn == fqdn then last.at else LastFailure(before, fqdn)
  }

  /** A threshold below one trips on the first failure, like a threshold of one. */
  function Expected(calls: seq<Call>, fqdn: string, threshold: int, cooldown: real, now: real): Phase {
    if Failures(calls, fqdn) < (if threshold < 1 then 1 else threshold) then Closed
    else if now - LastFailure(calls, fqdn) >= cooldown then HalfOpen
    else Open
  }

  class Breaker {
    const enabled: bool
    const threshold: int
    const cooldown: real
    var circuits: map<string, Circuit>
    ghost var calls: seq<Call>
    ghost var clock: real

    /** A stored circuit agrees with the calls; one found half open has cooled down. */
    ghost predicate Agrees(fqdn: string)
      reads this
    {
      if fqdn !in circuits then Failures(calls, fqdn) == 0
      else
        var c := circuits[fqdn];
        && c.failures == Failures(calls, fqdn)
        && c.lastFailure == LastFailure(calls, fqdn)
        && (c.phase.Closed? <==> c.failures < (if threshold < 1 then 1 else threshold))
        && (c.phase.HalfOpen? ==> clock - c.lastFailure >= cooldown)
    }

    ghost predicate Valid()
      reads this
    {
      enabled ==> forall fqdn :: Agrees(fqdn)
    }

    constructor (enabled: bool, threshold: int, cooldown: real)
      ensures Valid() && calls == [] && clock == 0.0
      ensures this.enabled == enabled && this.threshold == threshold && this.cooldown == cooldown
    {
      this.enabled, this.threshold, this.cooldown := enabled, threshold, cooldown;
      circuits, calls, clock := map[], [], 0.0;
    }

    /** The clock is monotonic; the answer is what the calls say, whoever asked before. */
    method GetState(fqdn: string, now: real) returns (phase: Phase)
      requires Valid() && clock <= now
      modifies this
      ensures Valid() && clock == now && calls == old(calls) + [Query(fqdn, now)]
      ensures phase == if enabled then Expected(old(calls), fqdn, threshold, cooldown, now) else Closed
    {
      ghost var before := calls;
      calls, clock := calls + [Query(fqdn, now)], now;
      assert calls[..|calls| - 1] == before;
      if !enabled {
        return Closed;
      }
      phase := Closed;
      if fqdn in circuits {
        var c := circuits[fqdn];
        if c.phase.Open? && now - c.lastFailure >= cooldown {
          c := c.(phase := HalfOpen);
          circuits := circuits[fqdn := c];
        }
        phase := c.phase;
      }
      forall f ensures Agrees(f) {
        assert old(Agrees(f));
      }
      assert old(Agrees(fqdn));
    }

    method RecordSuccess(fqdn: string)
      requires Valid()
      modifies this
      ensures Valid() && clock == old(clock) && calls == old(calls) + [Success(fqdn)]
    {
      ghost var before := calls;
      calls := calls + [Success(fqdn)];
      assert calls[..|calls| - 1] == before;
      if enabled && fqdn in circuits {
        circuits := circuits[fqdn := circuits[fqdn].(failures := 0, phase := Closed)];
      }
      if enabled {
        forall f ensures Agrees(f) {
          assert old(Agrees(f));
        }
      }
    }

    method RecordFailure(fqdn: string, now: real)
      requires Valid() && clock <= now
      modifies this
      ensures Valid() && clock == now && calls == old(calls) + [Failure(fqdn, now)]
    {
      ghost var before := calls;
      calls, clock := calls + [Failure(fqdn, now)], now;
      assert calls[..|calls| - 1] == before;
      if !enabled {
        return;
      }
      var c := if fqdn in circuits then circuits[fqdn] else Circuit(0, 0.0, Closed);
      c := c.(failures := c.failures + 1, lastFailure := now);
      if c.failures >= threshold {
        c := c.(phase := Open);
      }
      circuits := circuits[fqdn := c];
      forall f ensures Agrees(f) {
        assert old(Agrees(f));
      }
    }
  }

  // ---- consequences ----

  /** The calls that bear on one agent: its own successes and failures. */
  function Relevant(calls: seq<Call>, fqdn: string): seq<Call> {
    if calls == [] then []
    else
      var last := calls[|calls| - 1];
      Relevant(calls[..|calls| - 1], fqdn) + (if last.fqdn == fqdn && !last.Query? then [last] else [])
  }

  /** Other agents' calls and state queries change no answer. */
  lemma {:induction false} OnlyRelevantCallsMatter(calls: seq<Call>, fqdn: string)
    ensures Failures(calls, fqdn) == Failures(Relevant(calls, fqdn), fqdn)
    ensures LastFailure(calls, fqdn) == LastFailure(Relevant(calls, fqdn), fqdn)
  {
    if calls != [] {
      var before, last := calls[..|calls| - 1], calls[|calls| - 1];
      OnlyRelevantCallsMatter(before, fqdn);
      if last.fqdn == fqdn && !last.Query? {
        var r := Relevant(calls, fqdn);
        assert r[|r| - 1] == last && r[..|r| - 1] == Relevant(before, fqdn);
      } else {
        assert Relevant(calls, fqdn) == Relevant(before, fqdn);
      }
    }
  }

  /** Histories that differ only in queries and in other agents' calls get the same answer. */
  lemma AnswerIgnoresQueries(a: seq<Call>, b: seq<Call>, fqdn: string, threshold: int, cooldown: real, now: real)
    requires Relevant(a, fqdn) == Relevant(b, fqdn)
    ensures Expected(a, fqdn, threshold, cooldown, now) == Expected(b, fqdn, threshold, cooldown, now)
  {
    OnlyRelevantCallsMatter(a, fqdn);
    OnlyRelevantCallsMatter(b, fqdn);
  }

  /** The advertised transitions: N failures open a circuit, cooling down half-opens it, one failure
      reopens it and one success closes it. */
  lemma Transitions(calls: seq<Call>, fqdn: string, threshold: int, cooldown: real, at: real, now: real)
    ensures Expected(calls + [Success(fqdn)], fqdn, threshold, cooldown, now).Closed?
    ensures !Expected(calls, fqdn, threshold, cooldown, at).Closed? && now - at < cooldown ==>
      Expected(calls + [Failure(fqdn, at)], fqdn, threshold, cooldown, now).Open?
    ensures Expected(calls, fqdn, threshold, cooldown, at).Open? && now - LastFailure(calls, fqdn) >= cooldown ==>
      Expected(calls, fqdn, threshold, cooldown, now).HalfOpen?
  {
    assert (calls + [Success(fqdn)])[..|calls|] == calls;
    assert (calls + [Failure(fqdn, at)])[..|calls|] == calls;
  }
}
