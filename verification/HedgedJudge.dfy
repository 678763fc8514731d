/** The hedged language decision: two racing requests, one answer, and the judge's runtime fallback. */
module HedgedJudge {
  import opened Wrappers

  // A parsed reply; None is the model validly answering `null`.
  type Reply = Option<string>

  datatype Attempt = Absent | Running | Succeeded(reply: Reply) | Failed | Cancelled {
    // task.done()
    predicate Done() { Succeeded? || Failed? }
  }

  datatype Outcome =
    | Returned(reply: Reply, bySecond: bool)
    | GaveUp        // both attempts failed: returns None
    | Raised        // a single unhedged attempt failed
    | Aborted       // decide() itself was cancelled

  datatype Phase =
    | Single                                        // hedging off: awaiting the one attempt
    | WaitFirst                                     // awaiting the first, up to the hedge delay
    | WaitAny(firstLeft: bool, secondLeft: bool)    // awaiting whatever is still pending
    | Over(outcome: Outcome)

  datatype State = State(phase: Phase, first: Attempt, second: Attempt, hedgeWon: bool, errored: bool)

  datatype Step =
    | Complete(second: bool, result: Attempt)   // an attempt finishes, at any moment
    | Wake                                      // the coroutine resumes from its wait
    | Abort

  function Start(hedging: bool): State {
    State(if hedging then WaitFirst else Single, Running, Absent, false, false)
  }

  // The `finally` block cancels whatever still runs.
  function Stopped(a: Attempt): Attempt {
    if a.Running? then Cancelled else a
  }

  function Finish(s: State, o: Outcome): State {
    s.(phase := Over(o), first := Stopped(s.first), second := Stopped(s.second))
  }

  predicate Enabled(s: State, e: Step) {
    match e
    case Complete(second, result) => result.Done() && (if second then s.second.Running? else s.first.Running?)
    case Wake =>
      (match s.phase
       case Single => s.first.Done()
       case WaitFirst => true      // done, or the delay has passed
       case WaitAny(f, g) => (f && s.first.Done()) || (g && s.second.Done())
       case Over(_) => false)
    case Abort => !s.phase.Over?
  }

  function Next(s: State, e: Step): State
    requires Enabled(s, e)
  {
    match e
    case Complete(second, result) => if second then s.(second := result) else s.(first := result)
    case Abort => Finish(s, Aborted)
    case Wake =>
      match s.phase
      case Single => if s.first.Succeeded? then Finish(s, Returned(s.first.reply, false)) else Finish(s, Raised)
      case WaitFirst =>
        if s.first.Succeeded? then Finish(s, Returned(s.first.reply, false))
        else s.(second := Running, phase := WaitAny(true, true))
      case WaitAny(f, g) =>
        // Of the attempts just done, a successful second beats a successful first.
        if g && s.second.Succeeded? then Finish(s.(hedgeWon := true), Returned(s.second.reply, true))
        else if f && s.first.Succeeded? then Finish(s, Returned(s.first.reply, false))
        else
          var f', g' := f && !s.first.Done(), g && !s.second.Done();
          if f' || g' then s.(phase := WaitAny(f', g')) else Finish(s.(errored := true), GaveUp)
  }

  // ---------- What holds in every reachable state ----------

  predicate Inv(s: State) {
    && !s.first.Absent?
    && (s.phase.Single? || s.phase.WaitFirst? ==> s.second.Absent?)
    && (!s.phase.Over? ==> !s.hedgeWon && !s.errored && !s.first.Cancelled? && !s.second.Cancelled?)
    && (s.phase.WaitAny? ==>
          && !s.second.Absent? && (s.phase.firstLeft || s.phase.secondLeft)
          && (!s.phase.firstLeft ==> s.first.Failed?)
          && (!s.phase.secondLeft ==> s.second.Failed?))
    && (s.phase.Over? ==> Settled(s, s.phase.outcome))
  }

  // How a decision may end.
  predicate Settled(s: State, o: Outcome) {
    && !s.first.Running? && !s.second.Running?
    && (o.Returned? ==> (if o.bySecond then s.second else s.first) == Succeeded(o.reply))
    && (o.GaveUp? ==> s.first.Failed? && s.second.Failed?)
    && (o.Raised? ==> s.first.Failed? && s.second.Absent?)
    && (s.errored <==> o.GaveUp?)
    && (s.hedgeWon <==> o.Returned? && o.bySecond)
  }

  lemma StepKeepsInv(s: State, e: Step)
    requires Inv(s) && Enabled(s, e)
    ensures Inv(Next(s, e))
  {
  }

  predicate EnabledRun(s: State, steps: seq<Step>)
    decreases |steps|
  {
    steps == [] || (Enabled(s, steps[0]) && EnabledRun(Next(s, steps[0]), steps[1..]))
  }

  function Run(s: State, steps: seq<Step>): State
    requires EnabledRun(s, steps)
    decreases |steps|
  {
    if steps == [] then s else Run(Next(s, steps[0]), steps[1..])
  }

  predicate AnySucceeded(s: State) {
    s.first.Succeeded? || s.second.Succeeded?
  }

  lemma {:induction false} RunKeepsInv(s: State, steps: seq<Step>)
    requires Inv(s) && EnabledRun(s, steps)
    ensures Inv(Run(s, steps))
    ensures (s.phase.WaitFirst? || s.phase.WaitAny?) ==> !Run(s, steps).phase.Single?
    ensures s.phase.Over? && s.phase.outcome.Raised? ==> Run(s, steps).phase == s.phase
    ensures (s.phase.WaitFirst? || s.phase.WaitAny?) && Run(s, steps).phase.Over? ==>
      !Run(s, steps).phase.outcome.Raised?
    decreases |steps|
  {
    if steps != [] {
      StepKeepsInv(s, steps[0]);
      if Next(s, steps[0]).phase.Over? {
        OverForever(Next(s, steps[0]), steps[1..]);
      }
      RunKeepsInv(Next(s, steps[0]), steps[1..]);
    }
  }

  lemma {:induction false} OverForever(s: State, steps: seq<Step>)
    requires Inv(s) && EnabledRun(s, steps) && s.phase.Over?
    ensures Run(s, steps) == s
    decreases |steps|
  {
  }

  /** MAIN: with hedging on, under every completion schedule: a returned reply is that of an attempt that
      succeeded; unless decide() was cancelled, a reply is returned if and only if some launched attempt
      succeeded, and the errored flag is set if and only if both failed; the hedge won exactly when the
      second's reply is returned; and no attempt is left running. */
  lemma HedgedDecision(steps: seq<Step>)
    requires EnabledRun(Start(true), steps) && Run(Start(true), steps).phase.Over?
    ensures var s := Run(Start(true), steps); var o := s.phase.outcome;
      && !s.first.Running? && !s.second.Running?
      && (o.Returned? ==> (if o.bySecond then s.second else s.first) == Succeeded(o.reply))
      && (!o.Aborted? ==> (o.Returned? <==> AnySucceeded(s)))
      && (!o.Aborted? ==> (s.errored <==> s.first.Failed? && s.second.Failed?))
      && (s.hedgeWon <==> o.Returned? && o.bySecond)
  {
    RunKeepsInv(Start(true), steps);
  }

  /** Once both launched attempts are done, the next wake ends the decision: nothing can hang. */
  lemma WakeAfterBothDone(s: State)
    requires Inv(s) && s.phase.WaitAny? && s.first.Done() && s.second.Done()
    ensures Enabled(s, Wake) && Next(s, Wake).phase.Over?
    ensures Next(s, Wake).phase.outcome.Returned? <==> AnySucceeded(s)
  {
  }

  // ---------- The judge behind it ----------

  const FALLBACK_AFTER := 2

  // What one decide() tells the failure counter; `keyAvailable` says whether the default judge has a key.
  datatype Verdict = Good | Bad(keyAvailable: bool)

  // decide(): a reply or a valid `null` is good; both attempts failing, or an exception, is bad; a
  // cancellation passes through.
  function VerdictOf(o: Outcome, keyAvailable: bool): Option<Verdict> {
    match o
    case Returned(_, _) => Some(Good)
    case GaveUp => Some(Bad(keyAvailable))
    case Raised => Some(Bad(keyAvailable))
    case Aborted => None
  }

  datatype Judge = Judge(model: string, failures: nat, fellBack: bool)

  function Judged(j: Judge, v: Verdict, default: string): Judge {
    match v
    case Good => j.(failures := 0)
    case Bad(keyAvailable) =>
      var f := j.failures + 1;
      if j.fellBack || f < FALLBACK_AFTER || j.model == default || !keyAvailable then j.(failures := f)
      else Judge(default, f, true)
  }

  class LanguageSwitcher {
    const defaultModel: string
    var model: string
    var consecutiveFailures: nat
    var runtimeFallbackDone: bool

    constructor (model: string, defaultModel: string)
      ensures Current() == Judge(model, 0, false) && this.defaultModel == defaultModel
    {
      this.model, this.defaultModel := model, defaultModel;
      consecutiveFailures, runtimeFallbackDone := 0, false;
    }

    function Current(): Judge
      reads this
    {
      Judge(model, consecutiveFailures, runtimeFallbackDone)
    }

    method NoteFailure(keyAvailable: bool)
      modifies this
      ensures Current() == Judged(old(Current()), Bad(keyAvailable), defaultModel)
    {
      consecutiveFailures := consecutiveFailures + 1;
      if runtimeFallbackDone || consecutiveFailures < FALLBACK_AFTER {
        return;
      }
      if model == defaultModel {
        return;
      }
      if !keyAvailable {
        return;
      }
      model := defaultModel;
      runtimeFallbackDone := true;
    }

    // The part of decide() after the hedged call, for each way that call can end.
    method Decide(o: Outcome, errored: bool, keyAvailable: bool) returns (result: Reply)
      requires !o.Aborted? && (errored <==> o.GaveUp?)
      modifies this
      ensures Current() == Judged(old(Current()), VerdictOf(o, keyAvailable).value, defaultModel)
      ensures result == if o.Returned? then o.reply else None
    {
      if o.Raised? {
        NoteFailure(keyAvailable);
        return None;
      }
      result := if o.Returned? then o.reply else None;
      if result.None? {
        if errored {
          NoteFailure(keyAvailable);
        } else {
          consecutiveFailures := 0;
        }
        return;
      }
      consecutiveFailures := 0;
    }
  }

  function JudgeRun(j: Judge, verdicts: seq<Verdict>, default: string): Judge {
    if verdicts == [] then j
    else Judged(JudgeRun(j, verdicts[..|verdicts| - 1], default), verdicts[|verdicts| - 1], default)
  }

  // The run of bad verdicts the sequence ends with.
  function BadTail(verdicts: seq<Verdict>): nat {
    if verdicts == [] || verdicts[|verdicts| - 1].Good? then 0 else 1 + BadTail(verdicts[..|verdicts| - 1])
  }

  lemma {:induction false} FailuresAreBadTail(model: string, verdicts: seq<Verdict>, default: string)
    ensures var j := JudgeRun(Judge(model, 0, false), verdicts, default);
      && j.failures == BadTail(verdicts)
      && j.model == (if j.fellBack then default else model)
      && (j.fellBack ==> model != default)
  {
    if verdicts != [] {
      FailuresAreBadTail(model, verdicts[..|verdicts| - 1], default);
    }
  }

  // The judge was swapped by the i-th verdict.
  predicate SwappedAt(model: string, verdicts: seq<Verdict>, default: string, i: nat) {
    i < |verdicts| &&
    JudgeRun(Judge(model, 0, false), verdicts[..i], default).model
      != JudgeRun(Judge(model, 0, false), verdicts[..i + 1], default).model
  }

  /** MAIN: a verdict swaps the judge exactly when no swap happened before, it is at least the second bad
      one in a row, the judge is not the default yet, and the default has a key. */
  lemma SwapIff(model: string, verdicts: seq<Verdict>, default: string, i: nat)
    requires i < |verdicts|
    ensures SwappedAt(model, verdicts, default, i) <==>
      && !JudgeRun(Judge(model, 0, false), verdicts[..i], default).fellBack
      && verdicts[i].Bad? && verdicts[i].keyAvailable
      && i > 0 && verdicts[i - 1].Bad?
      && model != default
  {
    var before, upTo := verdicts[..i], verdicts[..i + 1];
    assert upTo[..|upTo| - 1] == before && upTo[|upTo| - 1] == verdicts[i];
    FailuresAreBadTail(model, before, default);
    if i > 0 { assert before[|before| - 1] == verdicts[i - 1]; }
  }

  lemma {:induction false} FellBackStays(model: string, verdicts: seq<Verdict>, default: string, i: nat, j: nat)
    requires i <= j <= |verdicts|
    requires JudgeRun(Judge(model, 0, false), verdicts[..i], default).fellBack
    ensures JudgeRun(Judge(model, 0, false), verdicts[..j], default).fellBack
    decreases j
  {
    if i < j {
      FellBackStays(model, verdicts, default, i, j - 1);
      var upTo := verdicts[..j];
      assert upTo[..|upTo| - 1] == verdicts[..j - 1];
    }
  }

  /** MAIN: the judge is swapped at most once. */
  lemma SwappedOnce(model: string, verdicts: seq<Verdict>, default: string, i: nat, j: nat)
    requires SwappedAt(model, verdicts, default, i) && SwappedAt(model, verdicts, default, j)
    ensures i == j
  {
    if i < j {
      SwapSetsFlag(model, verdicts, default, i);
      FellBackStays(model, verdicts, default, i + 1, j);
      SwapIff(model, verdicts, default, j);
    } else if j < i {
      SwapSetsFlag(model, verdicts, default, j);
      FellBackStays(model, verdicts, default, j + 1, i);
      SwapIff(model, verdicts, default, i);
    }
  }

  lemma SwapSetsFlag(model: string, verdicts: seq<Verdict>, default: string, i: nat)
    requires SwappedAt(model, verdicts, default, i)
    ensures JudgeRun(Judge(model, 0, false), verdicts[..i + 1], default).fellBack
  {
    var upTo := verdicts[..i + 1];
    assert upTo[..|upTo| - 1] == verdicts[..i];
  }
}
