/** Post-deployment hooks: a ledger of what was done, retries, and compensation in reverse (pyfog/hooks.py). */
module Hooks {
  datatype Step = Step(name: string, key: string, retries: nat, rollback: bool)

  /** One call to a plugin and whether it succeeded. */
  datatype Call = Forward(key: string, ok: bool) | Compensate(key: string, ok: bool)

  /** What the n-th call ever made will answer; an error and an unsuccessful answer are the same to the caller. */
  type Oracle = nat -> bool

  type Ledger = set<string>

  /** A plan is refused unless its names and keys are unique. */
  predicate UniquePlan(steps: seq<Step>) {
    forall i, j :: 0 <= i < j < |steps| ==> steps[i].name != steps[j].name && steps[i].key != steps[j].key
  }

  /* ----- what a run does, as a function of the answers ----- */

  /** Call a step until it succeeds, at most `tries` times. */
  function Try(o: Oracle, log: seq<Call>, key: string, tries: nat): (r: (seq<Call>, bool))
    decreases tries
  {
    if tries == 0 then (log, false)
    else
      var ok := o(|log|);
      if ok then (log + [Forward(key, true)], true) else Try(o, log + [Forward(key, false)], key, tries - 1)
  }

  /** Where a run stands: the calls made, the ledger, the steps this run completed, and whether one failed. */
  datatype Progress = Progress(log: seq<Call>, ledger: Ledger, completed: seq<Step>, failed: bool)

  function Advance(o: Oracle, p: Progress, step: Step): Progress {
    if p.failed || step.key in p.ledger then p
    else
      var (log, ok) := Try(o, p.log, step.key, step.retries + 1);
      if ok then Progress(log, p.ledger + {step.key}, p.completed + [step], false) else p.(log := log, failed := true)
  }

  /** The first `n` steps of a plan. */
  function Forwards(o: Oracle, log: seq<Call>, ledger: Ledger, steps: seq<Step>, n: nat): Progress
    requires n <= |steps|
  {
    if n == 0 then Progress(log, ledger, [], false) else Advance(o, Forwards(o, log, ledger, steps, n - 1), steps[n - 1])
  }

  /** Compensate completed steps from the last to the first. */
  function RollBack(o: Oracle, log: seq<Call>, completed: seq<Step>): seq<Call>
    decreases |completed|
  {
    if completed == [] then log
    else
      var step := completed[|completed| - 1];
      var log1 := if step.rollback then log + [Compensate(step.key, o(|log|))] else log;
      RollBack(o, log1, completed[..|completed| - 1])
  }

  datatype Outcome = Completed(steps: seq<Step>) | RolledBack

  function RunHooks(o: Oracle, log: seq<Call>, ledger: Ledger, steps: seq<Step>): (r: (seq<Call>, Ledger, Outcome)) {
    var p := Forwards(o, log, ledger, steps, |steps|);
    if p.failed then (RollBack(o, p.log, p.completed), p.ledger, RolledBack) else (p.log, p.ledger, Completed(p.completed))
  }

  class HookLedger {
    var completedKeys: Ledger

    constructor ()
      ensures completedKeys == {}
    {
      completedKeys := {};
    }

    method Mark(key: string)
      modifies this
      ensures completedKeys == old(completedKeys) + {key}
    {
      completedKeys := completedKeys + {key};
    }
  }

  /** The plugins, as the caller sees them. */
  class PluginRunner {
    const oracle: Oracle
    var log: seq<Call>

    constructor (oracle: Oracle)
      ensures this.oracle == oracle && log == []
    {
      this.oracle := oracle;
      log := [];
    }

    method Forward(key: string) returns (ok: bool)
      modifies this
      ensures ok == oracle(|old(log)|) && log == old(log) + [Call.Forward(key, ok)]
    {
      ok := oracle(|log|);
      log := log + [Call.Forward(key, ok)];
    }

    method Compensate(key: string) returns (ok: bool)
      modifies this
      ensures ok == oracle(|old(log)|) && log == old(log) + [Call.Compensate(key, ok)]
    {
      ok := oracle(|log|);
      log := log + [Call.Compensate(key, ok)];
    }
  }

  /** The retry loop of one step. */
  method RunStep(runner: PluginRunner, step: Step) returns (ok: bool)
    modifies runner
    ensures (runner.log, ok) == Try(runner.oracle, old(runner.log), step.key, step.retries + 1)
  {
    ok := false;
    var attempts := 0;
    while attempts < step.retries + 1 && !ok
      invariant attempts <= step.retries + 1
      invariant Try(runner.oracle, old(runner.log), step.key, step.retries + 1)
             == if ok then (runner.log, true) else Try(runner.oracle, runner.log, step.key, step.retries + 1 - attempts)
    {
      ok := runner.Forward(step.key);
      attempts := attempts + 1;
    }
  }

  /** Undo this run's steps, last first; a failing compensation does not stop the others. */
  method Undo(runner: PluginRunner, completed: seq<Step>)
    modifies runner
    ensures runner.log == RollBack(runner.oracle, old(runner.log), completed)
  {
    var k := |completed|;
    assert completed[..k] == completed;
    while k > 0
      invariant 0 <= k <= |completed|
      invariant RollBack(runner.oracle, runner.log, completed[..k]) == RollBack(runner.oracle, old(runner.log), completed)
    {
      k := k - 1;
      assert completed[..k + 1][..k] == completed[..k];
      if completed[k].rollback { var _ := runner.Compensate(completed[k].key); }
    }
    assert completed[..0] == [];
  }

  method RunPostDeployHooks(runner: PluginRunner, ledger: HookLedger, steps: seq<Step>) returns (outcome: Outcome)
    modifies runner, ledger
    ensures (runner.log, ledger.completedKeys, outcome)
         == RunHooks(runner.oracle, old(runner.log), old(ledger.completedKeys), steps)
  {
    var completed: seq<Step> := [];
    var failed := false;
    var i := 0;
    while i < |steps|
      invariant 0 <= i <= |steps| && !failed
      invariant Progress(runner.log, ledger.completedKeys, completed, failed)
             == Forwards(runner.oracle, old(runner.log), old(ledger.completedKeys), steps, i)
    {
      var step := steps[i];
      i := i + 1;
      if step.key in ledger.completedKeys { continue; }
      var ok := RunStep(runner, step);
      if !ok {
        failed := true;
        break;
      }
      ledger.Mark(step.key);
      completed := completed + [step];
    }
    FailureStops(runner.oracle, old(runner.log), old(ledger.completedKeys), steps, i, |steps|);
    if failed {
      Undo(runner, completed);
      return RolledBack;
    }
    return Completed(completed);
  }

  /** After a failure no later step is looked at. */
  lemma {:induction false} FailureStops(o: Oracle, log: seq<Call>, ledger: Ledger, steps: seq<Step>, i: nat, n: nat)
    requires i <= n <= |steps|
    ensures Forwards(o, log, ledger, steps, i).failed ==>
              Forwards(o, log, ledger, steps, n) == Forwards(o, log, ledger, steps, i)
    decreases n
  {
    if i < n { FailureStops(o, log, ledger, steps, i, n - 1); }
  }

  /* ----- counting calls ----- */

  function Forwarded(log: seq<Call>, key: string): nat {
    if log == [] then 0
    else
      var last := log[|log| - 1];
      Forwarded(log[..|log| - 1], key) + if last.Forward? && last.key == key then 1 else 0
  }

  function Successes(log: seq<Call>, key: string): nat {
    if log == [] then 0
    else
      var last := log[|log| - 1];
      Successes(log[..|log| - 1], key) + if last == Forward(key, true) then 1 else 0
  }

  lemma OneCall(log: seq<Call>, call: Call, key: string)
    ensures Forwarded(log + [call], key) == Forwarded(log, key) + if call.Forward? && call.key == key then 1 else 0
    ensures Successes(log + [call], key) == Successes(log, key) + if call == Forward(key, true) then 1 else 0
  {
    assert (log + [call])[..|log|] == log;
  }

  /** A step is called once or more, up to its allowance; all of it when every call fails. It succeeds at most once. */
  lemma {:induction false} TryCounts(o: Oracle, log: seq<Call>, key: string, tries: nat, other: string)
    ensures var (log', ok) := Try(o, log, key, tries);
            && log <= log'
            && (other != key ==> Forwarded(log', other) == Forwarded(log, other) && Successes(log', other) == Successes(log, other))
            && (0 < tries ==> Forwarded(log, key) + 1 <= Forwarded(log', key))
            && Forwarded(log', key) <= Forwarded(log, key) + tries
            && (!ok ==> Forwarded(log', key) == Forwarded(log, key) + tries)
            && Successes(log', key) == Successes(log, key) + if ok then 1 else 0
    decreases tries
  {
    if tries > 0 {
      var ok := o(|log|);
      OneCall(log, Forward(key, ok), key);
      OneCall(log, Forward(key, ok), other);
      if !ok { TryCounts(o, log + [Forward(key, false)], key, tries - 1, other); }
    }
  }

  /** The ledger knows every success, and no key has succeeded twice. */
  ghost predicate Recorded(log: seq<Call>, ledger: Ledger) {
    forall key :: Successes(log, key) <= (if key in ledger then 1 else 0)
  }

  lemma AdvanceRecords(o: Oracle, p: Progress, step: Step)
    requires Recorded(p.log, p.ledger)
    ensures var p' := Advance(o, p, step); Recorded(p'.log, p'.ledger) && p.ledger <= p'.ledger && p.log <= p'.log
  {
    var p' := Advance(o, p, step);
    TryCounts(o, p.log, step.key, step.retries + 1, step.key);
    forall key ensures Successes(p'.log, key) <= if key in p'.ledger then 1 else 0 {
      TryCounts(o, p.log, step.key, step.retries + 1, key);
      assert Successes(p.log, key) <= if key in p.ledger then 1 else 0;
    }
  }

  lemma {:induction false} ForwardsRecord(o: Oracle, log: seq<Call>, ledger: Ledger, steps: seq<Step>, n: nat)
    requires n <= |steps| && Recorded(log, ledger)
    ensures var p := Forwards(o, log, ledger, steps, n); Recorded(p.log, p.ledger) && ledger <= p.ledger && log <= p.log
  {
    if n > 0 {
      ForwardsRecord(o, log, ledger, steps, n - 1);
      AdvanceRecords(o, Forwards(o, log, ledger, steps, n - 1), steps[n - 1]);
    }
  }

  /** Compensations add nothing to the forward calls. */
  lemma {:induction false} RollBackCounts(o: Oracle, log: seq<Call>, completed: seq<Step>, key: string)
    ensures Forwarded(RollBack(o, log, completed), key) == Forwarded(log, key)
    ensures Successes(RollBack(o, log, completed), key) == Successes(log, key)
    decreases |completed|
  {
    if completed != [] {
      var step := completed[|completed| - 1];
      var log1 := if step.rollback then log + [Compensate(step.key, o(|log|))] else log;
      if step.rollback { OneCall(log, Compensate(step.key, o(|log|)), key); }
      RollBackCounts(o, log1, completed[..|completed| - 1], key);
    }
  }

  /** Any number of runs, of any plans, that share a ledger. */
  function Runs(o: Oracle, plans: seq<seq<Step>>): (r: (seq<Call>, Ledger)) {
    if plans == [] then ([], {})
    else
      var (log, ledger) := Runs(o, plans[..|plans| - 1]);
      var (log', ledger', _) := RunHooks(o, log, ledger, plans[|plans| - 1]);
      (log', ledger')
  }

  /** At most once: over all runs together, every idempotency key succeeds at most once, and the ledger knows it. */
  lemma {:induction false} AtMostOnce(o: Oracle, plans: seq<seq<Step>>)
    ensures Recorded(Runs(o, plans).0, Runs(o, plans).1)
  {
    if plans != [] {
      AtMostOnce(o, plans[..|plans| - 1]);
      var (log, ledger) := Runs(o, plans[..|plans| - 1]);
      var steps := plans[|plans| - 1];
      ForwardsRecord(o, log, ledger, steps, |steps|);
      var p := Forwards(o, log, ledger, steps, |steps|);
      forall key ensures Successes(Runs(o, plans).0, key) <= if key in Runs(o, plans).1 then 1 else 0 {
        RollBackCounts(o, p.log, p.completed, key);
        assert Successes(p.log, key) <= if key in p.ledger then 1 else 0;
      }
    }
  }

  /* ----- one run ----- */

  /** The steps of a plan, among the first `n`, that the ledger did not know before the run. */
  function Fresh(steps: seq<Step>, ledger: Ledger, n: nat): seq<Step>
    requires n <= |steps|
  {
    if n == 0 then [] else Fresh(steps, ledger, n - 1) + if steps[n - 1].key in ledger then [] else [steps[n - 1]]
  }

  /** Until a failure, a run completes the fresh steps in order, and calls no step before its turn. */
  lemma {:induction false} ForwardsInOrder(o: Oracle, log: seq<Call>, ledger: Ledger, steps: seq<Step>, i: nat, n: nat)
    requires UniquePlan(steps) && i < |steps| && n <= |steps|
    ensures var p, step := Forwards(o, log, ledger, steps, n), steps[i];
            && (!p.failed ==> p.completed == Fresh(steps, ledger, n))
            && (n <= i ==> Forwarded(p.log, step.key) == Forwarded(log, step.key) && (step.key in p.ledger <==> step.key in ledger))
            && (step.key in ledger ==> step.key in p.ledger && Forwarded(p.log, step.key) == Forwarded(log, step.key))
            && Forwarded(p.log, step.key) <= Forwarded(log, step.key) + step.retries + 1
    decreases n
  {
    hide Fresh, Forwarded, Successes, Try, UniquePlan;
    FreshNext(steps, ledger, n);
    if n > 0 {
      ForwardsInOrder(o, log, ledger, steps, i, n - 1);
      ForwardsInOrder(o, log, ledger, steps, n - 1, n - 1);
      var p, step := Forwards(o, log, ledger, steps, n - 1), steps[n - 1];
      TryCounts(o, p.log, step.key, step.retries + 1, steps[i].key);
      KeysDiffer(steps, i, n - 1);
    }
  }

  lemma KeysDiffer(steps: seq<Step>, i: nat, j: nat)
    requires UniquePlan(steps) && i < |steps| && j < |steps|
    ensures i != j ==> steps[i].key != steps[j].key
  {
  }

  lemma FreshNext(steps: seq<Step>, ledger: Ledger, n: nat)
    requires n <= |steps|
    ensures Fresh(steps, ledger, 0) == []
    ensures 0 < n ==> Fresh(steps, ledger, n) == Fresh(steps, ledger, n - 1) + if steps[n - 1].key in ledger then [] else [steps[n - 1]]
  {
  }

  /** No run calls a step more than its retries allow, nor one the ledger already knows. */
  lemma CallsPerRun(o: Oracle, log: seq<Call>, ledger: Ledger, steps: seq<Step>, i: nat)
    requires UniquePlan(steps) && i < |steps|
    ensures var log' := RunHooks(o, log, ledger, steps).0;
            && Forwarded(log', steps[i].key) <= Forwarded(log, steps[i].key) + steps[i].retries + 1
            && (steps[i].key in ledger ==> Forwarded(log', steps[i].key) == Forwarded(log, steps[i].key))
  {
    ForwardsInOrder(o, log, ledger, steps, i, |steps|);
    var p := Forwards(o, log, ledger, steps, |steps|);
    RollBackCounts(o, p.log, p.completed, steps[i].key);
  }

  /** The steps that declare a compensation. */
  function Declaring(completed: seq<Step>): seq<Step> {
    if completed == [] then []
    else
      var last := completed[|completed| - 1];
      Declaring(completed[..|completed| - 1]) + if last.rollback then [last] else []
  }

  predicate CompensatesInReverse(calls: seq<Call>, declared: seq<Step>) {
    && |calls| == |declared|
    && forall k :: 0 <= k < |calls| ==> calls[k].Compensate? && calls[k].key == declared[|declared| - 1 - k].key
  }

  /** Exactly the steps that declare a compensation are compensated, each once, in reverse order. */
  lemma {:induction false} RollBackReverses(o: Oracle, log: seq<Call>, completed: seq<Step>)
    ensures log <= RollBack(o, log, completed)
    ensures CompensatesInReverse(RollBack(o, log, completed)[|log|..], Declaring(completed))
    decreases |completed|
  {
    if completed != [] {
      var step, front := completed[|completed| - 1], completed[..|completed| - 1];
      var log1 := if step.rollback then log + [Compensate(step.key, o(|log|))] else log;
      RollBackReverses(o, log1, front);
      var log' := RollBack(o, log1, front);
      assert RollBack(o, log, completed) == log';
      if step.rollback {
        assert log'[|log|..] == [log1[|log|]] + log'[|log1|..];
        ReverseOneMore(log1[|log|], log'[|log1|..], Declaring(front), step);
        assert Declaring(completed) == Declaring(front) + [step];
      } else {
        assert Declaring(completed) == Declaring(front);
      }
    }
  }

  lemma ReverseOneMore(call: Call, calls: seq<Call>, declared: seq<Step>, step: Step)
    requires CompensatesInReverse(calls, declared) && call.Compensate? && call.key == step.key
    ensures CompensatesInReverse([call] + calls, declared + [step])
  {
    var all, steps := [call] + calls, declared + [step];
    forall k | 0 <= k < |all| ensures all[k].Compensate? && all[k].key == steps[|steps| - 1 - k].key {
      if k > 0 { assert all[k] == calls[k - 1]; }
    }
  }

  /** The step a failed run stopped at. */
  lemma {:induction false} FailedAt(o: Oracle, log: seq<Call>, ledger: Ledger, steps: seq<Step>, n: nat) returns (j: nat)
    requires n <= |steps| && Forwards(o, log, ledger, steps, n).failed
    ensures j < n && !Forwards(o, log, ledger, steps, j).failed && Forwards(o, log, ledger, steps, j + 1).failed
  {
    if Forwards(o, log, ledger, steps, n - 1).failed {
      j := FailedAt(o, log, ledger, steps, n - 1);
    } else {
      j := n - 1;
    }
  }

  /** The calls made since `start` are all forward calls. */
  predicate OnlyForward(log: seq<Call>, start: nat) {
    start <= |log| && forall k :: start <= k < |log| ==> log[k].Forward?
  }

  lemma {:induction false} TryOnlyForwards(o: Oracle, log: seq<Call>, key: string, tries: nat, start: nat)
    requires OnlyForward(log, start)
    ensures OnlyForward(Try(o, log, key, tries).0, start)
    decreases tries
  {
    if tries > 0 && !o(|log|) { TryOnlyForwards(o, log + [Forward(key, false)], key, tries - 1, start); }
  }

  /** Nothing is compensated before a run has failed, nor in a run that does not fail. */
  lemma {:induction false} ForwardsOnlyForward(o: Oracle, log: seq<Call>, ledger: Ledger, steps: seq<Step>, n: nat)
    requires n <= |steps|
    ensures OnlyForward(Forwards(o, log, ledger, steps, n).log, |log|)
  {
    if n > 0 {
      ForwardsOnlyForward(o, log, ledger, steps, n - 1);
      var p := Forwards(o, log, ledger, steps, n - 1);
      TryOnlyForwards(o, p.log, steps[n - 1].key, steps[n - 1].retries + 1, |log|);
      hide Try;
    }
  }

  /** A run that completes compensates nothing, and leaves every step of its plan in the ledger. */
  lemma {:induction false} CompletedRun(o: Oracle, log: seq<Call>, ledger: Ledger, steps: seq<Step>)
    requires UniquePlan(steps) && RunHooks(o, log, ledger, steps).2.Completed?
    ensures var (log', ledger', outcome) := RunHooks(o, log, ledger, steps);
            && OnlyForward(log', |log|)
            && outcome.steps == Fresh(steps, ledger, |steps|)
            && (forall i :: 0 <= i < |steps| ==> steps[i].key in ledger')
  {
    ForwardsOnlyForward(o, log, ledger, steps, |steps|);
    ForwardsGrow(o, log, ledger, steps, |steps|);
    if steps != [] { ForwardsInOrder(o, log, ledger, steps, 0, |steps|); }
    hide Forwards;
  }

  /** How far the forward part of a failed run got. */
  lemma {:induction false} FailedForwards(o: Oracle, log: seq<Call>, ledger: Ledger, steps: seq<Step>) returns (j: nat)
    requires UniquePlan(steps) && Forwards(o, log, ledger, steps, |steps|).failed
    ensures j < |steps| && steps[j].key !in ledger
    ensures var p := Forwards(o, log, ledger, steps, |steps|);
            && p.failed && p.completed == Fresh(steps, ledger, j) && |log| <= |p.log|
            && Forwarded(p.log, steps[j].key) == Forwarded(log, steps[j].key) + steps[j].retries + 1
            && (forall i :: 0 <= i < j ==> steps[i].key in p.ledger) && steps[j].key !in p.ledger
    ensures forall i :: j < i < |steps| ==>
              Forwarded(Forwards(o, log, ledger, steps, |steps|).log, steps[i].key) == Forwarded(log, steps[i].key)
  {
    hide Fresh, Forwarded, Successes, Try;
    j := FailedAt(o, log, ledger, steps, |steps|);
    var before := Forwards(o, log, ledger, steps, j);
    FailureStops(o, log, ledger, steps, j + 1, |steps|);
    ForwardsInOrder(o, log, ledger, steps, j, j);
    TryCounts(o, before.log, steps[j].key, steps[j].retries + 1, steps[j].key);
    ForwardsGrow(o, log, ledger, steps, j);
    assert Forwards(o, log, ledger, steps, j + 1) == Advance(o, before, steps[j]);
    forall i | j < i < |steps|
      ensures Forwarded(Forwards(o, log, ledger, steps, |steps|).log, steps[i].key) == Forwarded(log, steps[i].key)
    {
      ForwardsInOrder(o, log, ledger, steps, i, j);
      TryCounts(o, before.log, steps[j].key, steps[j].retries + 1, steps[i].key);
    }
  }

  /**
   * The saga of a failed run: some fresh step failed on every call it was allowed; the fresh steps before it, and only
   * those, had been completed; no later step was called; nothing was compensated until then, and afterwards exactly
   * those that declare a compensation, last to first. All of them stay in the ledger, compensated or not.
   */
  lemma {:induction false} FailedRun(o: Oracle, log: seq<Call>, ledger: Ledger, steps: seq<Step>) returns (j: nat, start: nat)
    requires UniquePlan(steps) && RunHooks(o, log, ledger, steps).2 == RolledBack
    ensures j < |steps| && steps[j].key !in ledger && |log| <= start <= |RunHooks(o, log, ledger, steps).0|
    ensures var (log', ledger', _) := RunHooks(o, log, ledger, steps);
            && Forwarded(log', steps[j].key) == Forwarded(log, steps[j].key) + steps[j].retries + 1
            && OnlyForward(log'[..start], |log|)
            && CompensatesInReverse(log'[start..], Declaring(Fresh(steps, ledger, j)))
            && (forall i :: 0 <= i < j ==> steps[i].key in ledger') && steps[j].key !in ledger'
    ensures forall i :: j < i < |steps| ==>
              Forwarded(RunHooks(o, log, ledger, steps).0, steps[i].key) == Forwarded(log, steps[i].key)
  {
    hide Fresh, Forwarded, Forwards, Successes, Declaring, CompensatesInReverse, RollBack;
    var p := Forwards(o, log, ledger, steps, |steps|);
    j := FailedForwards(o, log, ledger, steps);
    start := |p.log|;
    ForwardsOnlyForward(o, log, ledger, steps, |steps|);
    RollBackReverses(o, p.log, p.completed);
    RollBackCounts(o, p.log, p.completed, steps[j].key);
    forall i | j < i < |steps| ensures Forwarded(RunHooks(o, log, ledger, steps).0, steps[i].key) == Forwarded(log, steps[i].key) {
      RollBackCounts(o, p.log, p.completed, steps[i].key);
    }
  }

  lemma {:induction false} ForwardsGrow(o: Oracle, log: seq<Call>, ledger: Ledger, steps: seq<Step>, n: nat)
    requires n <= |steps|
    ensures var p := Forwards(o, log, ledger, steps, n);
            && |log| <= |p.log|
            && (!p.failed ==> forall i :: 0 <= i < n ==> steps[i].key in p.ledger)
  {
    if n > 0 {
      ForwardsGrow(o, log, ledger, steps, n - 1);
      TryCounts(o, Forwards(o, log, ledger, steps, n - 1).log, steps[n - 1].key, steps[n - 1].retries + 1, steps[n - 1].key);
    }
  }

  /**
   * What the ledger of a failed run costs: a completed step, even one that was compensated, is not run again by any
   * later run of any plan.
   */
  lemma {:induction false} CompensatedNotRepeated(o: Oracle, log: seq<Call>, ledger: Ledger, steps: seq<Step>, i: nat, j: nat,
                                                  later: seq<Step>, k: nat)
    requires UniquePlan(steps) && UniquePlan(later) && i < j <= |steps| && k < |later| && later[k].key == steps[i].key
    requires !Forwards(o, log, ledger, steps, j).failed
    ensures var (log', ledger', _) := RunHooks(o, log, ledger, steps);
            Forwarded(RunHooks(o, log', ledger', later).0, steps[i].key) == Forwarded(log', steps[i].key)
  {
    var (log', ledger', _) := RunHooks(o, log, ledger, steps);
    ForwardsGrow(o, log, ledger, steps, j);
    LedgerGrows(o, log, ledger, steps, j, |steps|);
    CallsPerRun(o, log', ledger', later, k);
  }

  lemma {:induction false} LedgerGrows(o: Oracle, log: seq<Call>, ledger: Ledger, steps: seq<Step>, j: nat, n: nat)
    requires j <= n <= |steps|
    ensures Forwards(o, log, ledger, steps, j).ledger <= Forwards(o, log, ledger, steps, n).ledger
    decreases n
  {
    if j < n { LedgerGrows(o, log, ledger, steps, j, n - 1); }
  }
}
