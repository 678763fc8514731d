/** The double-checked client pools: any number of threads, any keys, every interleaving. */
module ClientPool {
  import opened Wrappers

  // The key of a client; `sync` tells the two pools apart, which share one lock.
  datatype Key = Key(baseUrl: Option<string>, http2: bool, sync: bool)

  type Client = nat

  // Where a thread is inside get_shared_http_client.
  datatype Thread =
    | Checking(key: Key)                            // about to read the pool without the lock
    | Acquiring(key: Key)                           // saw nothing: about to take the lock
    | Rechecking(key: Key)                          // holds the lock, about to read again
    | Building(key: Key)                            // holds the lock, saw nothing again
    | Storing(key: Key, client: Client)             // holds the lock, client built
    | Releasing(key: Key, client: Client)           // holds the lock, client in hand
    | Returned(key: Key, client: Client)

  // `built` lists every client construction, in order; a client is its position there.
  datatype State = State(
    pool: map<Key, Client>,
    lock: Option<nat>,
    threads: map<nat, Thread>,
    built: seq<Key>)

  const START := State(map[], None, map[], [])

  datatype Step = Call(thread: nat, key: Key) | Go(thread: nat)

  predicate HoldsLock(t: Thread) {
    t.Rechecking? || t.Building? || t.Storing? || t.Releasing?
  }

  predicate Enabled(s: State, e: Step) {
    match e
    case Call(i, _) => i !in s.threads
    case Go(i) =>
      i in s.threads && !s.threads[i].Returned? && (s.threads[i].Acquiring? ==> s.lock.None?)
  }

  function Next(s: State, e: Step): State
    requires Enabled(s, e)
  {
    match e
    case Call(i, key) => s.(threads := s.threads[i := Checking(key)])
    case Go(i) =>
      match s.threads[i]
      case Checking(key) =>
        s.(threads := s.threads[i := if key in s.pool then Returned(key, s.pool[key]) else Acquiring(key)])
      case Acquiring(key) => s.(lock := Some(i), threads := s.threads[i := Rechecking(key)])
      case Rechecking(key) =>
        s.(threads := s.threads[i := if key in s.pool then Releasing(key, s.pool[key]) else Building(key)])
      case Building(key) => s.(built := s.built + [key], threads := s.threads[i := Storing(key, |s.built|)])
      case Storing(key, c) => s.(pool := s.pool[key := c], threads := s.threads[i := Releasing(key, c)])
      case Releasing(key, c) => s.(lock := None, threads := s.threads[i := Returned(key, c)])
      case Returned(_, _) => s
  }

  // ---------- The invariant ----------

  // A built client is the pool's, or is about to be stored by the lock holder.
  ghost predicate Accounted(s: State, c: Client)
    requires c < |s.built|
  {
    (s.built[c] in s.pool && s.pool[s.built[c]] == c)
    || (s.lock.Some? && s.lock.value in s.threads && s.threads[s.lock.value] == Storing(s.built[c], c))
  }

  // What where a thread stands says about the lock and the pool.
  ghost predicate Fits(s: State, i: nat)
    requires i in s.threads
  {
    var t := s.threads[i];
    && (HoldsLock(t) ==> s.lock == Some(i))
    && (t.Building? || t.Storing? ==> t.key !in s.pool)
    && (t.Releasing? || t.Returned? ==> t.key in s.pool && s.pool[t.key] == t.client)
    && (t.Storing? ==> t.client < |s.built| && s.built[t.client] == t.key)
  }

  ghost predicate LockHeld(s: State) {
    s.lock.Some? ==> s.lock.value in s.threads && HoldsLock(s.threads[s.lock.value])
  }

  ghost predicate PoolBuilt(s: State) {
    forall key :: key in s.pool ==> s.pool[key] < |s.built| && s.built[s.pool[key]] == key
  }

  ghost predicate Inv(s: State) {
    && (forall i :: i in s.threads ==> Fits(s, i))
    && LockHeld(s)
    && PoolBuilt(s)
    && (forall c :: 0 <= c < |s.built| ==> Accounted(s, c))
  }

  lemma StepKeepsFits(s: State, e: Step)
    requires Inv(s) && Enabled(s, e)
    ensures forall i :: i in Next(s, e).threads ==> Fits(Next(s, e), i)
  {
    hide Accounted;
    var s' := Next(s, e);
    assert Fits(s', e.thread) by {
      assert e.Go? ==> Fits(s, e.thread);
    }
    forall i | i in s.threads && i != e.thread ensures Fits(s', i) {
      assert Fits(s, i);
      assert e.Go? ==> Fits(s, e.thread);
    }
  }

  lemma StepKeepsPool(s: State, e: Step)
    requires Inv(s) && Enabled(s, e)
    ensures LockHeld(Next(s, e)) && PoolBuilt(Next(s, e))
  {
    hide Accounted;
    if e.Go? {
      assert Fits(s, e.thread);
    }
  }

  lemma StepKeepsAccounts(s: State, e: Step)
    requires Inv(s) && Enabled(s, e)
    ensures forall c :: 0 <= c < |Next(s, e).built| ==> Accounted(Next(s, e), c)
  {
    var s' := Next(s, e);
    if e.Go? {
      assert Fits(s, e.thread);
    }
    forall c | 0 <= c < |s'.built| ensures Accounted(s', c) {
      if c < |s.built| {
        assert Accounted(s, c);
      }
    }
  }

  lemma StepKeepsInv(s: State, e: Step)
    requires Inv(s) && Enabled(s, e)
    ensures Inv(Next(s, e))
  {
    hide Accounted, Fits, LockHeld, PoolBuilt, Next;
    StepKeepsFits(s, e);
    StepKeepsPool(s, e);
    StepKeepsAccounts(s, e);
  }

  predicate EnabledRun(s: State, steps: seq<Step>)
    decreases |steps|
  {
    steps == [] || (Enabled(s, steps[0]) && EnabledRun(Next(s, steps[0]), steps[1..]))
  }

  function Run(s: State, steps: seq<Step>): State
    requires EnabledRun(s, steps)
    decreases |steps|
  {
    if steps == [] then s else Run(Next(s, steps[0]), steps[1..])
  }

  lemma {:induction false} RunKeepsInv(s: State, steps: seq<Step>)
    requires Inv(s) && EnabledRun(s, steps)
    ensures Inv(Run(s, steps))
    decreases |steps|
  {
    if steps != [] {
      StepKeepsInv(s, steps[0]);
      RunKeepsInv(Next(s, steps[0]), steps[1..]);
    }
  }

  /** MAIN: in every interleaving of any number of threads, at most one client is ever built per key,
      and any two calls that returned for one key returned the same client, built for that key. */
  lemma OneClientPerKey(steps: seq<Step>)
    requires EnabledRun(START, steps)
    ensures var s := Run(START, steps);
      && (forall c, d :: 0 <= c < d < |s.built| ==> s.built[c] != s.built[d])
      && (forall i, j | i in s.threads && j in s.threads && s.threads[i].Returned? && s.threads[j].Returned? ::
            s.threads[i].key == s.threads[j].key ==> s.threads[i].client == s.threads[j].client)
      && (forall i :: i in s.threads && s.threads[i].Returned? ==>
            s.threads[i].client < |s.built| && s.built[s.threads[i].client] == s.threads[i].key)
  {
    hide Run;
    RunKeepsInv(START, steps);
    var s := Run(START, steps);
    forall i | i in s.threads ensures Fits(s, i) {}
    forall c, d | 0 <= c < d < |s.built| ensures s.built[c] != s.built[d] {
      assert Accounted(s, c) && Accounted(s, d);
    }
  }

  // The steps a call still has to take at most.
  function StepsLeft(t: Thread): nat {
    match t
    case Checking(_) => 6
    case Acquiring(_) => 5
    case Rechecking(_) => 4
    case Building(_) => 3
    case Storing(_, _) => 2
    case Releasing(_, _) => 1
    case Returned(_, _) => 0
  }

  /** Every step takes its own call nearer to its return, for the key it was made for, and leaves the others
      where they are; so a call returns after at most six steps of its own. */
  lemma StepsMakeProgress(s: State, i: nat)
    requires Enabled(s, Go(i))
    ensures var s' := Next(s, Go(i));
      && s'.threads.Keys == s.threads.Keys && s'.threads[i].key == s.threads[i].key
      && StepsLeft(s'.threads[i]) < StepsLeft(s.threads[i]) <= 6
      && forall j :: j in s.threads && j != i ==> s'.threads[j] == s.threads[j]
  {
  }

  /** Nobody waits for nothing: a thread that has not returned can move, or waits for a lock whose
      holder can. */
  lemma NoDeadlock(s: State, i: nat)
    requires Inv(s) && i in s.threads && !s.threads[i].Returned?
    ensures Enabled(s, Go(i)) || (s.lock.Some? && s.lock.value != i && Enabled(s, Go(s.lock.value)))
  {
    assert Fits(s, i);
  }
}
