/** The bounded reconnect machine of a language detector, at the grain of its awaits. */
module Reconnect {
  const MAX_RECONNECTS := 2
  const RESET_WINDOW := 30.0

  // Where a reconnect task is suspended.
  datatype Stage =
    | Created         // scheduled, has not run yet
    | Closing         // waiting for the old loops and socket to go
    | Sleeping
    | Starting        // inside start()

  // One run of _reconnect: when it was entered, and how many start() calls it made.
  datatype Episode = Episode(entered: real, starts: nat)

  // `tasks` holds the live reconnect tasks; the other fields are the detector's own.
  datatype State = State(
    tasks: map<nat, Stage>,
    nextTask: nat,
    reconnecting: bool,
    stopping: bool,
    dead: bool,
    attempts: nat,
    lastAt: real,
    episodes: seq<Episode>,
    startsAfterStop: nat)

  const FRESH := State(map[], 0, false, false, false, 0, 0.0, [], 0)

  datatype Step =
    | Schedule                          // a loop reports a dead socket
    | Enter(task: nat, now: real)       // the task runs its first stretch
    | Closed(task: nat)                 // the old socket is gone
    | Woke(task: nat)                   // the delay is over
    | Started(task: nat)                // start() returned
    | StartFailed(task: nat)            // start() raised
    | Stop                              // shutdown sets the flag
    | Cancel(task: nat)                 // shutdown cancels the task

  predicate At(s: State, task: nat, stage: Stage) {
    task in s.tasks && s.tasks[task] == stage
  }

  predicate Enabled(s: State, e: Step) {
    match e
    case Schedule => true
    case Enter(t, now) => At(s, t, Created) && now >= s.lastAt && now >= 0.0
    case Closed(t) => At(s, t, Closing)
    case Woke(t) => At(s, t, Sleeping)
    case Started(t) => At(s, t, Starting)
    case StartFailed(t) => At(s, t, Starting)
    case Stop => true
    case Cancel(t) => s.stopping && t in s.tasks
  }

  // The task ends: its `finally` clears the flag.
  function Finish(s: State, task: nat): State {
    s.(tasks := s.tasks - {task}, reconnecting := false)
  }

  // The head of the retry loop: end on stop or on the cap, else take one more attempt.
  function Loop(s: State, task: nat): State {
    if s.stopping || s.attempts >= MAX_RECONNECTS then Finish(s, task)
    else s.(attempts := s.attempts + 1, tasks := s.tasks[task := Closing])
  }

  function BeginStart(s: State, task: nat): State {
    var n := |s.episodes| - 1;
    s.(tasks := s.tasks[task := Starting],
       episodes := if n >= 0 then s.episodes[n := s.episodes[n].(starts := s.episodes[n].starts + 1)] else s.episodes,
       startsAfterStop := s.startsAfterStop + if s.stopping then 1 else 0)
  }

  function Next(s: State, e: Step): State
    requires Enabled(s, e)
  {
    match e
    case Schedule =>
      if s.stopping then s
      else if s.reconnecting then s.(dead := true)
      else
        s.(dead := true, reconnecting := true, tasks := s.tasks[s.nextTask := Created], nextTask := s.nextTask + 1)
    case Enter(t, now) =>
      var reset := if now - s.lastAt > RESET_WINDOW then s.(attempts := 0) else s;
      Loop(reset.(lastAt := now, episodes := reset.episodes + [Episode(now, 0)]), t)
    case Closed(t) => s.(tasks := s.tasks[t := Sleeping])
    case Woke(t) => if s.stopping then Finish(s, t) else BeginStart(s, t)
    case Started(t) => Finish(s.(dead := false), t)
    case StartFailed(t) => Loop(s, t)
    case Stop => s.(stopping := true)
    // A task cancelled before its first stretch never reaches its `finally`.
    case Cancel(t) => if s.tasks[t].Created? then s.(tasks := s.tasks - {t}) else Finish(s, t)
  }

  // ---------- Chains of episodes ----------

  // Each entry within the window of the one before, from i to the last.
  predicate ChainFrom(episodes: seq<Episode>, i: nat) {
    forall k :: i < k < |episodes| ==> episodes[k].entered - episodes[k - 1].entered <= RESET_WINDOW
  }

  function Starts(episodes: seq<Episode>): nat {
    if episodes == [] then 0 else Starts(episodes[..|episodes| - 1]) + episodes[|episodes| - 1].starts
  }

  lemma StartsGrow(episodes: seq<Episode>, e: Episode, i: nat)
    requires i <= |episodes|
    ensures Starts((episodes + [e])[i..]) == Starts(episodes[i..]) + e.starts
  {
    var tail := (episodes + [e])[i..];
    assert tail == episodes[i..] + [e];
    assert tail[..|tail| - 1] == episodes[i..];
  }

  lemma NoStarts()
    ensures Starts([]) == 0
  {
  }

  // ---------- The invariant ----------

  // The attempt a task has taken but not yet started.
  function Unstarted(s: State): nat {
    if exists t :: t in s.tasks && (s.tasks[t].Closing? || s.tasks[t].Sleeping?) then 1 else 0
  }

  ghost predicate SingleFlight(s: State) {
    && (forall t, u :: t in s.tasks && u in s.tasks ==> t == u)
    && (forall t :: t in s.tasks ==> s.reconnecting && t < s.nextTask)
    && (forall t :: t in s.tasks && !s.tasks[t].Created? ==> s.episodes != [])
  }

  ghost predicate Bounded(s: State) {
    && s.attempts <= MAX_RECONNECTS
    && (s.episodes != [] ==> s.lastAt == s.episodes[|s.episodes| - 1].entered)
    && (forall i :: 0 <= i < |s.episodes| && ChainFrom(s.episodes, i) ==>
          Starts(s.episodes[i..]) + Unstarted(s) <= s.attempts)
  }

  ghost predicate Inv(s: State) {
    SingleFlight(s) && Bounded(s) && s.startsAfterStop == 0
  }

  lemma FlightStep(s: State, e: Step)
    requires Inv(s) && Enabled(s, e)
    ensures SingleFlight(Next(s, e)) && Next(s, e).startsAfterStop == 0
  {
  }

  // Nothing about the episodes changes, and no attempt is left hanging that was not before.
  lemma BoundedSame(s: State, s': State)
    requires Bounded(s) && s'.episodes == s.episodes && s'.lastAt == s.lastAt
    requires s'.attempts <= MAX_RECONNECTS && s'.attempts - Unstarted(s') >= s.attempts - Unstarted(s)
    ensures Bounded(s')
  {
  }

  // A chain that goes on with one more entry was a chain before, and the entry came in time.
  lemma ChainShrinks(episodes: seq<Episode>, e: Episode, i: nat)
    requires i < |episodes| && ChainFrom(episodes + [e], i)
    ensures ChainFrom(episodes, i) && e.entered - episodes[|episodes| - 1].entered <= RESET_WINDOW
  {
    var all := episodes + [e];
    forall k | i < k < |episodes| ensures episodes[k].entered - episodes[k - 1].entered <= RESET_WINDOW {
      assert all[k].entered - all[k - 1].entered <= RESET_WINDOW;
    }
    assert all[|episodes|].entered - all[|episodes| - 1].entered <= RESET_WINDOW;
  }

  // The task that enters is the only one, so the attempt it takes is the only one not yet started.
  lemma EnterTakesOne(s: State, t: nat, now: real)
    requires SingleFlight(s) && Enabled(s, Enter(t, now)) && s.attempts <= MAX_RECONNECTS
    ensures var s' := Next(s, Enter(t, now));
      var made := if now - s.lastAt > RESET_WINDOW then 0 else s.attempts;
      && s'.episodes == s.episodes + [Episode(now, 0)] && s'.lastAt == now
      && Unstarted(s) == 0 && made + Unstarted(s') == s'.attempts <= MAX_RECONNECTS
  {
    assert s.tasks - {t} == map[];
  }

  lemma EnterBounded(s: State, t: nat, now: real)
    requires Inv(s) && Enabled(s, Enter(t, now))
    ensures Bounded(Next(s, Enter(t, now)))
  {
    hide Starts, Next, Unstarted, ChainFrom, SingleFlight;
    var s' := Next(s, Enter(t, now));
    var all, e := s'.episodes, Episode(now, 0);
    EnterTakesOne(s, t, now);
    forall i | 0 <= i < |all| && ChainFrom(all, i) ensures Starts(all[i..]) + Unstarted(s') <= s'.attempts {
      StartsGrow(s.episodes, e, i);
      if i < |s.episodes| {
        ChainShrinks(s.episodes, e, i);
      } else {
        NoStarts();
        assert s.episodes[i..] == [];
      }
    }
  }

  lemma StartBounded(s: State, t: nat)
    requires Inv(s) && At(s, t, Sleeping) && !s.stopping
    ensures Bounded(BeginStart(s, t))
  {
    var s' := BeginStart(s, t);
    var n := |s.episodes| - 1;
    assert Unstarted(s) == 1;
    assert Unstarted(s') == 0;
    forall i | 0 <= i < |s'.episodes| && ChainFrom(s'.episodes, i) ensures Starts(s'.episodes[i..]) <= s'.attempts {
      assert ChainFrom(s.episodes, i) by {
        forall k | i < k < |s.episodes| ensures s.episodes[k].entered - s.episodes[k - 1].entered <= RESET_WINDOW {
          assert s'.episodes[k].entered - s'.episodes[k - 1].entered <= RESET_WINDOW;
        }
      }
      assert s.episodes == s.episodes[..n] + [s.episodes[n]];
      assert s'.episodes == s.episodes[..n] + [s'.episodes[n]];
      StartsGrow(s.episodes[..n], s.episodes[n], i);
      StartsGrow(s.episodes[..n], s'.episodes[n], i);
    }
  }

  lemma LoopBounded(s: State, t: nat)
    requires Inv(s) && At(s, t, Starting)
    ensures Bounded(Loop(s, t))
  {
    assert Unstarted(s) == 0;
    BoundedSame(s, Loop(s, t));
  }

  lemma StepKeepsInv(s: State, e: Step)
    requires Inv(s) && Enabled(s, e)
    ensures Inv(Next(s, e))
  {
    FlightStep(s, e);
    match e
    case Enter(t, now) => EnterBounded(s, t, now);
    case Woke(t) =>
      if s.stopping { BoundedSame(s, Finish(s, t)); } else { StartBounded(s, t); }
    case StartFailed(t) => LoopBounded(s, t);
    case _ => BoundedSame(s, Next(s, e));
  }

  // ---------- Whole runs ----------

  predicate EnabledRun(s: State, steps: seq<Step>)
    decreases |steps|
  {
    steps == [] || (Enabled(s, steps[0]) && EnabledRun(Next(s, steps[0]), steps[1..]))
  }

  function Run(s: State, steps: seq<Step>): State
    requires EnabledRun(s, steps)
    decreases |steps|
  {
    if steps == [] then s else Run(Next(s, steps[0]), steps[1..])
  }

  lemma {:induction false} RunKeepsInv(s: State, steps: seq<Step>)
    requires Inv(s) && EnabledRun(s, steps)
    ensures Inv(Run(s, steps))
    decreases |steps|
  {
    if steps != [] {
      StepKeepsInv(s, steps[0]);
      RunKeepsInv(Next(s, steps[0]), steps[1..]);
    }
  }

  /** MAIN: in every run at most one reconnect task is live, no start() begins after stopping, and every
      chain of episodes entered at most 30 seconds apart makes at most two start() attempts. */
  lemma ReconnectsAreBounded(steps: seq<Step>)
    requires EnabledRun(FRESH, steps)
    ensures var s := Run(FRESH, steps);
      && (forall t, u :: t in s.tasks && u in s.tasks ==> t == u)
      && s.startsAfterStop == 0
      && (forall i :: 0 <= i < |s.episodes| && ChainFrom(s.episodes, i) ==> Starts(s.episodes[i..]) <= MAX_RECONNECTS)
  {
    RunKeepsInv(FRESH, steps);
  }

  // ---------- What a reconnect does try ----------

  /** A report of a dead socket brings up a task, unless one is live or the detector is stopping. */
  lemma ScheduleBringsUp(s: State)
    requires Inv(s)
    ensures var s' := Next(s, Schedule);
      if s.stopping || s.reconnecting then s'.tasks == s.tasks
      else s'.tasks == s.tasks[s.nextTask := Created] && s.nextTask !in s.tasks && s'.reconnecting
  {
  }

  /** A task that runs goes on to an attempt exactly when the detector is not stopping and fewer than two
      attempts were made, counted afresh when more than 30 seconds have passed since the last entry; else it
      ends at once. */
  lemma EnterTriesIff(s: State, t: nat, now: real)
    requires Enabled(s, Enter(t, now))
    ensures var s' := Next(s, Enter(t, now));
      var made := if now - s.lastAt > 30.0 then 0 else s.attempts;
      && s'.lastAt == now
      && (if !s.stopping && made < 2 then At(s', t, Closing) && s'.attempts == made + 1
          else t !in s'.tasks && !s'.reconnecting && s'.attempts == made)
  {
  }

  /** A failed attempt is followed by another one on the same terms; a good one ends the task. */
  lemma FailedTriesIff(s: State, t: nat)
    requires At(s, t, Starting)
    ensures var s' := Next(s, StartFailed(t));
      if !s.stopping && s.attempts < 2 then At(s', t, Closing) && s'.attempts == s.attempts + 1
      else t !in s'.tasks && !s'.reconnecting
    ensures var s' := Next(s, Started(t)); t !in s'.tasks && !s'.reconnecting && !s'.dead
  {
  }

  /** The delay over, an attempt becomes a start exactly when the detector is not stopping. */
  lemma WokeStartsIff(s: State, t: nat)
    requires Inv(s) && At(s, t, Sleeping)
    ensures var s', n := Next(s, Woke(t)), |s.episodes| - 1;
      if s.stopping then t !in s'.tasks && s'.episodes == s.episodes
      else
        && At(s', t, Starting) && n >= 0
        && s'.episodes == s.episodes[n := Episode(s.episodes[n].entered, s.episodes[n].starts + 1)]
  {
  }

  /** MAIN: after a quiet half minute, with nobody stopping it, a reconnect makes two start attempts before it
      gives up: the bound of two is reached. */
  lemma QuietEpisodeTriesTwice(s: State, t: nat, now: real)
    requires Inv(s) && At(s, t, Created) && !s.stopping && now >= 0.0 && now - s.lastAt > 30.0
    ensures var tries := [Enter(t, now), Closed(t), Woke(t), StartFailed(t), Closed(t), Woke(t), StartFailed(t)];
      && EnabledRun(s, tries)
      && var last := Run(s, tries);
         && t !in last.tasks && !last.reconnecting
         && last.episodes == s.episodes + [Episode(now, 2)]
  {
    hide Inv;
    var s1 := Next(s, Enter(t, now));
    EnterTriesIff(s, t, now);
    assert s1.episodes == s.episodes + [Episode(now, 0)];
    var s3 := Attempted(s1, t);
    assert s3.episodes == s.episodes + [Episode(now, 1)];
    FailedTriesIff(s3, t);
    var s4 := Next(s3, StartFailed(t));
    var s6 := Attempted(s4, t);
    assert s6.episodes == s.episodes + [Episode(now, 2)];
    FailedTriesIff(s6, t);
    var s7 := Next(s6, StartFailed(t));
    var closed, woke, failed := Closed(t), Woke(t), StartFailed(t);
    RunOne(s6, [failed]);
    RunOne(Next(s4, closed), [woke, failed]);
    RunOne(s4, [closed, woke, failed]);
    RunOne(s3, [failed, closed, woke, failed]);
    RunOne(Next(s1, closed), [woke, failed, closed, woke, failed]);
    RunOne(s1, [closed, woke, failed, closed, woke, failed]);
    RunOne(s, [Enter(t, now), closed, woke, failed, closed, woke, failed]);
  }

  // The old socket goes, the delay passes, and a start is made.
  function Attempted(s: State, t: nat): (s': State)
    requires At(s, t, Closing) && !s.stopping && s.episodes != []
    ensures At(s', t, Starting) && !s'.stopping && s'.attempts == s.attempts
    ensures var n := |s.episodes| - 1;
      s'.episodes == s.episodes[..n] + [Episode(s.episodes[n].entered, s.episodes[n].starts + 1)]
  {
    Next(Next(s, Closed(t)), Woke(t))
  }

  lemma RunOne(s: State, steps: seq<Step>)
    requires steps != [] && Enabled(s, steps[0]) && EnabledRun(Next(s, steps[0]), steps[1..])
    ensures EnabledRun(s, steps) && Run(s, steps) == Run(Next(s, steps[0]), steps[1..])
  {
  }

  // ---------- Termination ----------

  function Rank(stage: Stage): nat {
    match stage
    case Created => 3
    case Closing => 2
    case Sleeping => 1
    case Starting => 0
  }

  // What is left of an episode: attempts first, then the stretches of the current one.
  function Left(s: State, t: nat): nat {
    if t !in s.tasks then 0
    else if s.tasks[t].Created? then 4 * MAX_RECONNECTS + 1
    else
      4 * (MAX_RECONNECTS - (if s.attempts <= MAX_RECONNECTS then s.attempts else MAX_RECONNECTS))
      + Rank(s.tasks[t]) + 1
  }

  predicate OwnStep(e: Step, t: nat) {
    match e
    case Enter(x, _) => x == t
    case Closed(x) => x == t
    case Woke(x) => x == t
    case Started(x) => x == t
    case StartFailed(x) => x == t
    case Cancel(x) => x == t
    case _ => false
  }

  /** Every episode ends: each step of its task uses up some of what is left, and no other step adds to
      it. */
  lemma EpisodesTerminate(s: State, e: Step, t: nat)
    requires Inv(s) && Enabled(s, e) && t in s.tasks
    ensures OwnStep(e, t) ==> Left(Next(s, e), t) < Left(s, t)
    ensures !OwnStep(e, t) ==> Left(Next(s, e), t) == Left(s, t)
  {
  }

  // The steps a run spends on one task.
  function StepsOf(steps: seq<Step>, t: nat): nat {
    if steps == [] then 0 else (if OwnStep(steps[0], t) then 1 else 0) + StepsOf(steps[1..], t)
  }

  const MAX_STEPS := 4 * MAX_RECONNECTS + 1

  // What a task may still take: all of it before it is scheduled, nothing once it has ended.
  function Budget(s: State, t: nat): nat {
    if t in s.tasks then Left(s, t) else if t < s.nextTask then 0 else MAX_STEPS
  }

  lemma BudgetStep(s: State, e: Step, t: nat)
    requires Inv(s) && Enabled(s, e)
    ensures Budget(Next(s, e), t) + (if OwnStep(e, t) then 1 else 0) <= Budget(s, t)
  {
    if t in s.tasks {
      EpisodesTerminate(s, e, t);
    }
  }

  lemma {:induction false} StepsWithinBudget(s: State, steps: seq<Step>, t: nat)
    requires Inv(s) && EnabledRun(s, steps)
    ensures StepsOf(steps, t) <= Budget(s, t)
    decreases |steps|
  {
    if steps != [] {
      hide Inv, Budget;
      StepKeepsInv(s, steps[0]);
      BudgetStep(s, steps[0], t);
      StepsWithinBudget(Next(s, steps[0]), steps[1..], t);
    }
  }

  /** MAIN: in every run every reconnect task takes at most nine steps, whatever the others do. */
  lemma TasksAreBounded(steps: seq<Step>, t: nat)
    requires EnabledRun(FRESH, steps)
    ensures StepsOf(steps, t) <= MAX_STEPS == 9
  {
    StepsWithinBudget(FRESH, steps, t);
  }
}
