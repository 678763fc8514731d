/** The registry of dials waiting for an answer: lazily purged, claimed once, bounded. */
module PendingDials {
  import opened Wrappers

  datatype Dial = Dial(agentId: string, publicUrl: string, expiresAt: real)

  // ---------- The ideal registry: what happened, and nothing else ----------

  datatype Event = Registered(ref: string, dial: Dial) | Claimed(ref: string)

  function Refs(log: seq<Event>): set<string> {
    set e | e in log && e.Registered? :: e.ref
  }

  // Registered and not claimed since.
  function Held(log: seq<Event>, ref: string): Option<Dial> {
    if log == [] then None
    else
      var e := log[|log| - 1];
      if e.ref != ref then Held(log[..|log| - 1], ref)
      else if e.Registered? then Some(e.dial)
      else None
  }

  // Held, and forgotten the moment it expires.
  function Available(log: seq<Event>, ref: string, now: real): Option<Dial> {
    var d := Held(log, ref);
    if d.Some? && d.value.expiresAt > now then d else None
  }

  function Live(log: seq<Event>, now: real): set<string> {
    set ref | ref in Refs(log) && Available(log, ref, now).Some?
  }

  // References are fresh, and only a dial that is held is claimed.
  predicate Proper(log: seq<Event>) {
    log == [] ||
    (var before, e := log[..|log| - 1], log[|log| - 1];
     Proper(before) && if e.Registered? then e.ref !in Refs(before) else Held(before, e.ref).Some?)
  }

  lemma {:induction false} HeldIsRegistered(log: seq<Event>, ref: string)
    ensures Held(log, ref).Some? ==> ref in Refs(log)
  {
    if log != [] {
      var before, e := log[..|log| - 1], log[|log| - 1];
      HeldIsRegistered(before, ref);
      assert log == before + [e] && e in log;
      forall x | x in before ensures x in log {}
    }
  }

  // What one more event changes.
  lemma HeldAfter(log: seq<Event>, e: Event, ref: string)
    ensures Held(log + [e], ref) ==
      if e.ref != ref then Held(log, ref) else if e.Registered? then Some(e.dial) else None
  {
    assert (log + [e])[..|log|] == log;
  }

  lemma ProperAfter(log: seq<Event>, e: Event)
    requires Proper(log) && if e.Registered? then e.ref !in Refs(log) else Held(log, e.ref).Some?
    ensures Proper(log + [e])
  {
    assert (log + [e])[..|log|] == log;
  }

  function Claims(log: seq<Event>, ref: string): nat {
    if log == [] then 0
    else Claims(log[..|log| - 1], ref) + if log[|log| - 1] == Claimed(ref) then 1 else 0
  }

  /** MAIN: a dial is available exactly when it was registered, was never claimed, and has not expired;
      and no reference is ever claimed twice. */
  lemma {:induction false} AvailableIff(log: seq<Event>, ref: string, now: real, d: Dial)
    requires Proper(log)
    ensures Available(log, ref, now) == Some(d) <==>
      Registered(ref, d) in log && Claimed(ref) !in log && d.expiresAt > now
    ensures Claims(log, ref) == if Claimed(ref) in log then 1 else 0
    ensures Claimed(ref) in log ==> ref in Refs(log)
  {
    if log != [] {
      var before, e := log[..|log| - 1], log[|log| - 1];
      assert log == before + [e];
      AvailableIff(before, ref, now, d);
      HeldIsRegistered(before, ref);
      if e == Claimed(ref) {
        NotClaimedWhileHeld(before, ref);
      }
      assert Registered(ref, d) in before ==> ref in Refs(before);
      forall x | x in before ensures x in log {}
      assert e in log;
    }
  }

  lemma {:induction false} NotClaimedWhileHeld(log: seq<Event>, ref: string)
    requires Proper(log) && Held(log, ref).Some?
    ensures Claimed(ref) !in log
  {
    AvailableIff(log, ref, Held(log, ref).value.expiresAt - 1.0, Held(log, ref).value);
  }

  // ---------- The registry ----------

  class Registry {
    const ttl: real
    const capacity: int
    var dials: map<string, Dial>
    ghost var log: seq<Event>
    ghost var now: real             // the last clock reading

    constructor (ttl: real, capacity: int)
      ensures this.ttl == ttl && this.capacity == capacity
      ensures Valid() && log == []
    {
      this.ttl, this.capacity := ttl, capacity;
      dials, log, now := map[], [], 0.0;
    }

    // The dict lags behind the ideal registry only by dials that have expired.
    ghost predicate Valid()
      reads this
    {
      && Proper(log)
      && (forall ref :: ref in dials ==> Held(log, ref) == Some(dials[ref]))
      && (forall ref :: Available(log, ref, now).Some? ==> ref in dials)
      && (dials == map[] || |dials| <= capacity)
    }

    // Drops expired dials.
    method Purge(at: real)
      requires Valid() && now <= at
      modifies this`dials, this`now
      ensures Valid() && now == at
      ensures dials.Keys == Live(log, at)
      ensures forall ref :: (if ref in dials then Some(dials[ref]) else None) == Available(log, ref, at)
    {
      hide Held, Proper, Refs;
      var expired := set ref | ref in dials && dials[ref].expiresAt <= at;
      ghost var start := dials;
      while expired != {}
        invariant expired <= dials.Keys <= start.Keys
        invariant forall ref :: ref in dials ==> dials[ref] == start[ref]
        invariant forall ref :: ref in expired ==> dials[ref].expiresAt <= at
        invariant forall ref ::
          ref in start && (ref !in dials || ref in expired) <==> ref in start && start[ref].expiresAt <= at
        invariant |dials| <= |start|
        decreases expired
      {
        var ref :| ref in expired;
        SmallerMap(dials, ref);
        dials := dials - {ref};
        expired := expired - {ref};
      }
      now := at;
      forall ref ensures (if ref in dials then Some(dials[ref]) else None) == Available(log, ref, at) {
        assert Available(log, ref, at).Some? ==> Available(log, ref, old(now)).Some?;
      }
      forall ref | ref in dials ensures ref in Live(log, at) { HeldIsRegistered(log, ref); }
      assert dials.Keys == Live(log, at);
    }

    // `token` is the fresh random reference; the clock is read again for the expiry.
    method Register(agentId: string, publicUrl: string, token: string, at: real, then': real)
      returns (ref: Option<string>)
      requires Valid() && now <= at <= then'
      requires token !in Refs(log)
      modifies this
      ensures Valid()
      ensures ref == if |Live(old(log), at)| >= capacity then None else Some(token)
      ensures log == if ref.None? then old(log)
        else old(log) + [Registered(token, Dial(agentId, publicUrl, then' + ttl))]
    {
      hide Held, Proper, Refs, Live;
      Purge(at);
      assert |dials| == |dials.Keys|;
      if |dials| >= capacity {
        return None;
      }
      HeldIsRegistered(log, token);
      var dial := Dial(agentId, publicUrl, then' + ttl);
      LargerMap(dials, token, dial);
      ProperAfter(log, Registered(token, dial));
      forall r ensures Held(log + [Registered(token, dial)], r) == if r == token then Some(dial) else Held(log, r) {
        HeldAfter(log, Registered(token, dial), r);
      }
      dials := dials[token := dial];
      log := log + [Registered(token, dial)];
      ref := Some(token);
    }

    // Looks without consuming.
    method Peek(ref: string, at: real) returns (dial: Option<Dial>)
      requires Valid() && now <= at
      modifies this`dials, this`now
      ensures Valid() && log == old(log)
      ensures dial == Available(log, ref, at)
    {
      Purge(at);
      dial := if ref in dials then Some(dials[ref]) else None;
    }

    method Claim(ref: string, at: real) returns (dial: Option<Dial>)
      requires Valid() && now <= at
      modifies this
      ensures Valid()
      ensures dial == Available(old(log), ref, at)
      ensures log == if dial.Some? then old(log) + [Claimed(ref)] else old(log)
    {
      hide Held, Proper, Refs, Live;
      Purge(at);
      dial := if ref in dials then Some(dials[ref]) else None;
      if dial.Some? {
        SmallerMap(dials, ref);
        ProperAfter(log, Claimed(ref));
        forall r ensures Held(log + [Claimed(ref)], r) == if r == ref then None else Held(log, r) {
          HeldAfter(log, Claimed(ref), r);
        }
        dials := dials - {ref};
        log := log + [Claimed(ref)];
      }
    }

    // How many dials are waiting.
    method Size(at: real) returns (n: nat)
      requires Valid() && now <= at
      modifies this`dials, this`now
      ensures Valid() && log == old(log)
      ensures n == |Live(log, at)| && (n == 0 || n <= capacity)
    {
      Purge(at);
      assert |dials| == |dials.Keys|;
      n := |dials|;
    }
  }

  lemma SmallerMap<K, V>(m: map<K, V>, k: K)
    requires k in m
    ensures |m - {k}| == |m| - 1
  {
    assert m == (m - {k})[k := m[k]];
  }

  lemma LargerMap<K, V>(m: map<K, V>, k: K, v: V)
    requires k !in m
    ensures |m[k := v]| == |m| + 1
  {
    assert m[k := v] - {k} == m;
  }
}
