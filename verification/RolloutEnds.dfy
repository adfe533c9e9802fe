/** Rollouts neither go on forever by themselves nor get stuck. */
module RolloutEnds {
  import opened Base
  import opened Rollout
  import opened RolloutRuns

  // ---------------------------------------------------------------------------
  // Bounded work

  /** Steps a worker can still take with what it has in hand. */
  function Rank(x: Worker): int {
    match x
    case Idle => 1
    case Holding(_) => 7
    case Skipping(_) => 2
    case Visiting(_) => 6
    case Sending(_) => 5
    case Waiting(_) => 4
    case Failing(_) => 3
    case Finishing(_) => 3
    case Exited => 0
  }

  function WorkLeft(s: State): int {
    8 * (|s.ledger.fates| - s.pool.next) + Total(Rank, s.pool.workers)
  }

  lemma WorkShrinks(s: State, w: nat, step: WorkStep)
    requires CanWork(s, w, step)
    ensures WorkLeft(DoWork(s, w, step)) < WorkLeft(s)
  {
    TotalUpdate(Rank, s.pool.workers, w, NextWorker(s, s.pool.workers[w], step));
  }

  lemma WorkLeftNonNegative(s: State)
    requires Owned(s.pool, s.ledger.fates)
    ensures WorkLeft(s) >= 0
  {
    TotalNonNegative(Rank, s.pool.workers);
  }

  function WorkSteps(actions: seq<Action>): nat {
    if actions == [] then 0
    else WorkSteps(actions[..|actions| - 1]) + if actions[|actions| - 1].Work? then 1 else 0
  }

  lemma {:induction false} WorkIsPaidFor(s: State, actions: seq<Action>)
    requires Legal(s, actions)
    ensures WorkSteps(actions) + WorkLeft(After(s, actions)) <= WorkLeft(s)
  {
    if actions != [] {
      var front, a := actions[..|actions| - 1], actions[|actions| - 1];
      WorkIsPaidFor(s, front);
      if a.Work? {
        WorkShrinks(After(s, front), a.w, a.step);
      }
    }
  }

  lemma {:induction false} RankOfIdle(n: nat)
    ensures Total(Rank, seq(n, _ => Idle)) == n
  {
    if n > 0 {
      RankOfIdle(n - 1);
      assert seq(n, _ => Idle)[1..] == seq(n - 1, _ => Idle);
    }
  }

  /** However the goroutines are scheduled and whatever the nodes answer, the workers
      take a bounded number of steps in all. */
  lemma BoundedWork(nodes: nat, workers: nat, ignoreFailures: bool, cpus: nat, actions: seq<Action>)
    requires Legal(Start(nodes, workers, ignoreFailures, cpus), actions)
    ensures WorkSteps(actions) <= 8 * nodes + workers
  {
    var s := Start(nodes, workers, ignoreFailures, cpus);
    WorkIsPaidFor(s, actions);
    StartIsGood(nodes, workers, ignoreFailures, cpus);
    RunKeeps(s, actions);
    WorkLeftNonNegative(After(s, actions));
    RankOfIdle(workers);
    assert s.pool.workers == seq(workers, _ => Idle);
  }

  /** Steps a pass of the checker can still take before it ends. */
  function PassLeft(m: Monitor): nat {
    if m.round.None? then 0 else RoundLeft(m.round.value)
  }

  function RoundLeft(r: Round): nat {
    2 * |At(r, Unsent)| + |At(r, Checking)|
  }

  lemma Dispatched(r: Round, t: nat)
    requires t in At(r, Unsent)
    ensures RoundLeft(r[t := Checking]) + 1 == RoundLeft(r)
  {
    assert At(r[t := Checking], Unsent) == At(r, Unsent) - {t};
    assert At(r[t := Checking], Checking) == At(r, Checking) + {t};
  }

  lemma KeptOne(r: Round, t: nat)
    requires t in At(r, Checking)
    ensures RoundLeft(r[t := Kept]) + 1 == RoundLeft(r)
  {
    assert At(r[t := Kept], Unsent) == At(r, Unsent);
    assert At(r[t := Kept], Checking) == At(r, Checking) - {t};
  }

  lemma Resolved(r: Round, t: nat)
    requires t in At(r, Checking)
    ensures RoundLeft(r - {t}) + 1 == RoundLeft(r)
  {
    assert At(r - {t}, Unsent) == At(r, Unsent);
    assert At(r - {t}, Checking) == At(r, Checking) - {t};
  }

  predicate InPass(a: Action) {
    a.Watch? && (a.watch.Dispatch? || a.watch.Report?)
  }

  /** Neither starts nor ends a pass. */
  predicate WithinPass(actions: seq<Action>) {
    forall i :: 0 <= i < |actions| && actions[i].Watch? ==>
      !actions[i].watch.StartRound? && !actions[i].watch.EndRound?
  }

  function PassSteps(actions: seq<Action>): nat {
    if actions == [] then 0
    else PassSteps(actions[..|actions| - 1]) + if InPass(actions[|actions| - 1]) then 1 else 0
  }

  lemma PassShrinks(m: Monitor, queueClosed: bool, step: WatchStep)
    requires WatchEnabled(m, queueClosed, step) && (step.Dispatch? || step.Report?)
    ensures PassLeft(DoWatch(m, step)) + 1 == PassLeft(m)
  {
    var r := m.round.value;
    match step {
      case Dispatch(t) => Dispatched(r, t);
      case Report(t, NotYet) => KeptOne(r, t);
      case Report(t, _) => Resolved(r, t);
    }
  }

  lemma {:induction false} PassIsPaidFor(s: State, actions: seq<Action>)
    requires Legal(s, actions) && WithinPass(actions)
    ensures PassSteps(actions) + PassLeft(After(s, actions).monitor) == PassLeft(s.monitor)
  {
    if actions != [] {
      var front, a := actions[..|actions| - 1], actions[|actions| - 1];
      PassIsPaidFor(s, front);
      if InPass(a) {
        PassShrinks(After(s, front).monitor, After(s, front).pool.queueClosed, a.watch);
      }
    }
  }

  /** A pass checks every outstanding task once: until it ends, the checkers take in and
      report each at most once, and when it can end they have done so with all. */
  lemma PassIsBounded(s: State, actions: seq<Action>)
    requires Enabled(s, Watch(StartRound)) && Legal(Do(s, Watch(StartRound)), actions) && WithinPass(actions)
    ensures PassSteps(actions) <= 2 * |s.monitor.outstanding|
    ensures CanWatch(After(Do(s, Watch(StartRound)), actions), EndRound({})) ==>
            PassSteps(actions) == 2 * |s.monitor.outstanding|
  {
    var s1 := Do(s, Watch(StartRound));
    PassIsPaidFor(s1, actions);
    var r := s1.monitor.round.value;
    assert At(r, Unsent) == s.monitor.outstanding && At(r, Checking) == {};
    var m := After(s1, actions).monitor;
    if m.round.Some? && forall t :: t in m.round.value ==> m.round.value[t] == Kept {
      assert At(m.round.value, Unsent) == {} && At(m.round.value, Checking) == {};
    }
  }

  // ---------------------------------------------------------------------------
  // A way to the end from every state

  /** There is at least one worker and one checker. */
  predicate Staffed(s: State) {
    |s.pool.workers| > 0 && s.monitor.cpus > 0
  }

  lemma OneAction(s: State, a: Action)
    requires Enabled(s, a)
    ensures Legal(s, [a]) && After(s, [a]) == Do(s, a)
  {
    assert [a][..0] == [];
  }

  lemma ThenOne(s: State, actions: seq<Action>, a: Action)
    requires Legal(s, actions) && Enabled(After(s, actions), a)
    ensures Legal(s, actions + [a]) && After(s, actions + [a]) == Do(After(s, actions), a)
  {
    assert (actions + [a])[..|actions|] == actions;
  }

  /** A task being checked can be resolved and its worker can learn of it. */
  lemma ResolveChecked(s: State, t: nat) returns (actions: seq<Action>)
    requires Invariant(s) && s.monitor.round.Some? && t in At(s.monitor.round.value, Checking)
    ensures Legal(s, actions) && Invariant(After(s, actions)) && WorkLeft(After(s, actions)) < WorkLeft(s)
  {
    var report := Watch(Report(t, Completed));
    assert t in Watched(s.monitor) && WaitedFor(s, t);
    var w := s.ledger.fates[t].worker;
    OneAction(s, report);
    ActionKeeps(s, report);
    var s1 := Do(s, report);
    assert s1.monitor.done[t] == ClosedNil;
    assert s1.pool.workers[w] == Waiting(t);
    var learn := Work(w, Learn);
    ThenOne(s, [report], learn);
    ActionKeeps(s1, learn);
    WorkShrinks(s1, w, Learn);
    actions := [report] + [learn];
  }

  /** So can a task not sent yet. */
  lemma ResolveUnsent(s: State, t: nat) returns (actions: seq<Action>)
    requires Invariant(s) && Staffed(s) && s.monitor.round.Some? && t in At(s.monitor.round.value, Unsent)
    ensures Legal(s, actions) && Invariant(After(s, actions)) && WorkLeft(After(s, actions)) < WorkLeft(s)
  {
    var checking := At(s.monitor.round.value, Checking);
    if |checking| < s.monitor.cpus {
      var dispatch := Watch(Dispatch(t));
      OneAction(s, dispatch);
      ActionKeeps(s, dispatch);
      var rest := ResolveChecked(Do(s, dispatch), t);
      RunAppend(s, [dispatch], rest);
      actions := [dispatch] + rest;
    } else {
      var u :| u in checking;
      actions := ResolveChecked(s, u);
    }
  }

  /** Any pass that still has something to do can be used to make progress. */
  lemma ResolveInRound(s: State, t: nat) returns (actions: seq<Action>)
    requires Invariant(s) && Staffed(s) && s.monitor.round.Some?
    requires t in s.monitor.round.value && s.monitor.round.value[t] != Kept
    ensures Legal(s, actions) && Invariant(After(s, actions)) && WorkLeft(After(s, actions)) < WorkLeft(s)
  {
    if s.monitor.round.value[t] == Checking {
      actions := ResolveChecked(s, t);
    } else {
      actions := ResolveUnsent(s, t);
    }
  }

  predicate RoundIsOver(s: State) {
    s.monitor.round.Some? && forall t :: t in s.monitor.round.value ==> s.monitor.round.value[t] == Kept
  }

  lemma FinishRound(s: State)
    requires Invariant(s) && RoundIsOver(s)
    ensures Enabled(s, Watch(EndRound({})))
    ensures var s' := Do(s, Watch(EndRound({})));
            && Invariant(s') && s'.pool == s.pool && s'.ledger == s.ledger
            && s'.monitor.round.None? && s'.monitor.noticed == s.monitor.noticed
            && s'.monitor.cpus == s.monitor.cpus
            && s'.monitor.outstanding == s.monitor.round.value.Keys
  {
    ActionKeeps(s, Watch(EndRound({})));
  }

  /** Outside a pass, a waited-for task is resolved by starting one. */
  lemma ResolveOutstanding(s: State, t: nat) returns (actions: seq<Action>)
    requires Invariant(s) && Staffed(s) && s.monitor.round.None? && t in s.monitor.outstanding
    ensures Legal(s, actions) && Invariant(After(s, actions)) && WorkLeft(After(s, actions)) < WorkLeft(s)
  {
    var start := Watch(StartRound);
    assert t in Watched(s.monitor);
    assert !s.monitor.returned;
    OneAction(s, start);
    ActionKeeps(s, start);
    var rest := ResolveUnsent(Do(s, start), t);
    RunAppend(s, [start], rest);
    actions := [start] + rest;
  }

  /** A worker that waits for an open task can be helped. */
  lemma HelpWaiting(s: State, w: nat) returns (actions: seq<Action>)
    requires Invariant(s) && Staffed(s) && w < |s.pool.workers| && s.pool.workers[w].Waiting?
    ensures Legal(s, actions) && Invariant(After(s, actions)) && WorkLeft(After(s, actions)) < WorkLeft(s)
  {
    var t := s.pool.workers[w].op;
    if s.monitor.done[t] != Open {
      OneAction(s, Work(w, Learn));
      ActionKeeps(s, Work(w, Learn));
      WorkShrinks(s, w, Learn);
      return [Work(w, Learn)];
    }
    assert WaitedFor(s, t) && t in Watched(s.monitor);
    if s.monitor.round.None? {
      actions := ResolveOutstanding(s, t);
    } else if u :| u in s.monitor.round.value && s.monitor.round.value[u] != Kept {
      actions := ResolveInRound(s, u);
    } else {
      FinishRound(s);
      OneAction(s, Watch(EndRound({})));
      var s1 := Do(s, Watch(EndRound({})));
      var rest := ResolveOutstanding(s1, t);
      RunAppend(s, [Watch(EndRound({}))], rest);
      actions := [Watch(EndRound({}))] + rest;
    }
  }

  lemma JustWork(s: State, w: nat, step: WorkStep) returns (actions: seq<Action>)
    requires Invariant(s) && CanWork(s, w, step)
    ensures Legal(s, actions) && Invariant(After(s, actions)) && WorkLeft(After(s, actions)) < WorkLeft(s)
  {
    actions := [Work(w, step)];
    OneAction(s, Work(w, step));
    ActionKeeps(s, Work(w, step));
    WorkShrinks(s, w, step);
  }

  /** A worker with a task for the monitor can hand it over, if need be after the
      pass that is going on. */
  lemma HelpSending(s: State, w: nat) returns (actions: seq<Action>)
    requires Invariant(s) && Staffed(s) && w < |s.pool.workers| && s.pool.workers[w].Sending?
    ensures Legal(s, actions) && Invariant(After(s, actions)) && WorkLeft(After(s, actions)) < WorkLeft(s)
  {
    assert !s.monitor.noticed;
    if s.monitor.round.None? {
      actions := JustWork(s, w, Hand);
    } else if u :| u in s.monitor.round.value && s.monitor.round.value[u] != Kept {
      actions := ResolveInRound(s, u);
    } else {
      FinishRound(s);
      OneAction(s, Watch(EndRound({})));
      var s1 := Do(s, Watch(EndRound({})));
      var rest := JustWork(s1, w, Hand);
      RunAppend(s, [Watch(EndRound({}))], rest);
      actions := [Watch(EndRound({}))] + rest;
    }
  }

  /** Any worker with a node in hand can get on with it. */
  lemma HelpBusy(s: State, w: nat) returns (actions: seq<Action>)
    requires Invariant(s) && Staffed(s) && w < |s.pool.workers| && Busy(s.pool.workers[w])
    ensures Legal(s, actions) && Invariant(After(s, actions)) && WorkLeft(After(s, actions)) < WorkLeft(s)
  {
    match s.pool.workers[w] {
      case Holding(_) => actions := JustWork(s, w, if Tripped(s.pool) then TripCheck else PassCheck);
      case Skipping(_) => actions := JustWork(s, w, CountSkip);
      case Visiting(_) => actions := JustWork(s, w, VisitOk);
      case Sending(_) => actions := HelpSending(s, w);
      case Waiting(_) => actions := HelpWaiting(s, w);
      case Failing(_) => actions := JustWork(s, w, CountFailure);
      case Finishing(_) => actions := JustWork(s, w, CountSuccess);
    }
  }

  /** Once the workers are gone the monitor has nothing in hand and returns. */
  lemma WrapUp(s: State) returns (actions: seq<Action>)
    requires Invariant(s) && s.pool.channelClosed && AllExited(s.pool)
    ensures Legal(s, actions) && After(s, actions).monitor.returned
    decreases if s.monitor.noticed then 0 else 1, if s.pool.queueClosed then 0 else 1,
              if s.monitor.returned then 0 else 1, if s.monitor.round.Some? && s.monitor.noticed then 0 else 1,
              if s.monitor.round.Some? then 1 else 0
  {
    NothingInHand(s);
    if s.monitor.returned {
      return [];
    }
    var a := if s.monitor.round.Some? then Watch(EndRound({}))
             else if !s.pool.queueClosed then CloseQueue
             else if !s.monitor.noticed then Watch(Notice)
             else Watch(StartRound);
    OneAction(s, a);
    ActionKeeps(s, a);
    var rest := WrapUp(Do(s, a));
    RunAppend(s, [a], rest);
    actions := [a] + rest;
  }

  lemma NothingInHand(s: State)
    requires Invariant(s) && AllExited(s.pool)
    ensures Watched(s.monitor) == {}
  {
    assert forall t: nat :: !WaitedFor(s, t);
  }

  /** From every state a run can reach, however unlucky so far, the rollout can still
      come to its end: no combination of workers, monitor and checkers gets stuck. */
  lemma {:induction false} CanFinish(s: State) returns (actions: seq<Action>)
    requires Invariant(s) && Staffed(s)
    ensures Legal(s, actions) && After(s, actions).monitor.returned
    decreases WorkLeft(s), if s.pool.channelClosed then 0 else 1
  {
    WorkLeftNonNegative(s);
    var first: seq<Action>;
    if w :| 0 <= w < |s.pool.workers| && Busy(s.pool.workers[w]) {
      first := HelpBusy(s, w);
    } else if s.pool.next < |s.ledger.fates| {
      assert s.pool.workers[0].Idle?;
      first := JustWork(s, 0, Take);
    } else if !s.pool.channelClosed {
      first := [CloseChannel];
      OneAction(s, CloseChannel);
      ActionKeeps(s, CloseChannel);
    } else if w :| 0 <= w < |s.pool.workers| && s.pool.workers[w].Idle? {
      first := JustWork(s, w, Exit);
    } else {
      actions := WrapUp(s);
      return;
    }
    SameSetting(s, first);
    var rest := CanFinish(After(s, first));
    RunAppend(s, first, rest);
    actions := first + rest;
  }

  /** In particular every run that is not over can be continued to its end. */
  lemma EveryRunCanFinish(nodes: nat, workers: nat, ignoreFailures: bool, cpus: nat, actions: seq<Action>)
    requires workers > 0 && cpus > 0
    requires Legal(Start(nodes, workers, ignoreFailures, cpus), actions)
    ensures exists rest :: Legal(Start(nodes, workers, ignoreFailures, cpus), actions + rest)
                           && After(Start(nodes, workers, ignoreFailures, cpus), actions + rest).monitor.returned
  {
    var s := Start(nodes, workers, ignoreFailures, cpus);
    StartIsGood(nodes, workers, ignoreFailures, cpus);
    RunKeeps(s, actions);
    SameSetting(s, actions);
    var rest := CanFinish(After(s, actions));
    RunAppend(s, actions, rest);
  }
}
