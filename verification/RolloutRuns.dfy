/** What every run of a rollout guarantees. */
module RolloutRuns {
  import opened Base
  import opened Rollout

  predicate Legal(s: State, actions: seq<Action>)
    decreases |actions|, 0
  {
    actions == [] ||
    (var front := actions[..|actions| - 1];
     Legal(s, front) && Enabled(After(s, front), actions[|actions| - 1]))
  }

  function After(s: State, actions: seq<Action>): State
    requires Legal(s, actions)
    decreases |actions|, 1
  {
    if actions == [] then s else Do(After(s, actions[..|actions| - 1]), actions[|actions| - 1])
  }

  lemma {:induction false} RunAppend(s: State, a: seq<Action>, b: seq<Action>)
    requires Legal(s, a) && Legal(After(s, a), b)
    ensures Legal(s, a + b) && After(s, a + b) == After(After(s, a), b)
  {
    if b == [] {
      assert a + b == a;
    } else {
      RunAppend(s, a, b[..|b| - 1]);
      assert (a + b)[..|a + b| - 1] == a + b[..|b| - 1];
    }
  }

  // ---------------------------------------------------------------------------
  // The invariant holds throughout

  lemma {:induction false} TotalZero<T>(f: T -> int, s: seq<T>)
    requires forall i :: 0 <= i < |s| ==> f(s[i]) == 0
    ensures Total(f, s) == 0
  {
    if s != [] {
      TotalZero(f, s[1..]);
    }
  }

  lemma StartIsGood(nodes: nat, workers: nat, ignoreFailures: bool, cpus: nat)
    ensures Invariant(Start(nodes, workers, ignoreFailures, cpus))
  {
    var s := Start(nodes, workers, ignoreFailures, cpus);
    TotalZero(CompletedOne, s.ledger.fates);
    TotalZero(FailedOne, s.ledger.fates);
    TotalZero(HeldOne, s.ledger.fates);
    TotalZero(BusyOne, s.pool.workers);
    TotalZero(Id, s.ledger.failures);
  }

  lemma CloseChannelKeeps(s: State)
    requires Invariant(s) && Enabled(s, CloseChannel)
    ensures Invariant(Do(s, CloseChannel))
  {
    assert forall op: nat :: WaitedFor(Do(s, CloseChannel), op) == WaitedFor(s, op);
  }

  lemma CloseQueueKeeps(s: State)
    requires Invariant(s) && Enabled(s, CloseQueue)
    ensures Invariant(Do(s, CloseQueue))
  {
    assert forall op: nat :: WaitedFor(Do(s, CloseQueue), op) == WaitedFor(s, op);
  }

  lemma ActionKeeps(s: State, a: Action)
    requires Invariant(s) && Enabled(s, a)
    ensures Invariant(Do(s, a))
  {
    match a {
      case Work(w, step) => WorkKeeps(s, w, step);
      case CloseChannel => CloseChannelKeeps(s);
      case CloseQueue => CloseQueueKeeps(s);
      case Watch(step) => WatchKeeps(s, step);
    }
  }

  lemma {:induction false} RunKeeps(s: State, actions: seq<Action>)
    requires Invariant(s) && Legal(s, actions)
    ensures Invariant(After(s, actions))
  {
    if actions != [] {
      RunKeeps(s, actions[..|actions| - 1]);
      ActionKeeps(After(s, actions[..|actions| - 1]), actions[|actions| - 1]);
    }
  }

  lemma {:induction false} SameSetting(s: State, actions: seq<Action>)
    requires Legal(s, actions)
    ensures var s' := After(s, actions);
            && s'.pool.ignoreFailures == s.pool.ignoreFailures
            && |s'.pool.workers| == |s.pool.workers|
            && |s'.ledger.fates| == |s.ledger.fates|
            && s'.monitor.cpus == s.monitor.cpus
  {
    if actions != [] {
      SameSetting(s, actions[..|actions| - 1]);
    }
  }

  // ---------------------------------------------------------------------------
  // Counting

  /** The nodes told to deploy whose outcome no counter has yet. */
  function Unresolved(s: State): set<nat> {
    set op | op in s.ledger.visited && op < |s.ledger.fates| && s.ledger.fates[op].Held?
  }

  /** Things with distinct numbers below `n` are at most `n`. */
  lemma {:induction false} AtMostWorkers(ops: set<nat>, fates: seq<Fate>, n: nat)
    requires forall op :: op in ops ==> op < |fates| && fates[op].Held? && fates[op].worker < n
    requires forall a, b :: a in ops && b in ops && fates[a].worker == fates[b].worker ==> a == b
    ensures |ops| <= n
  {
    if n == 0 {
      assert ops == {};
    } else if x :| x in ops && fates[x].worker == n - 1 {
      AtMostWorkers(ops - {x}, fates, n - 1);
    } else {
      AtMostWorkers(ops, fates, n - 1);
    }
  }

  /** Conservation. At every moment of every run the counters and the workers with a
      node in hand account for every operation taken, and no more nodes are being
      deployed to than there are workers. */
  lemma Conservation(nodes: nat, workers: nat, ignoreFailures: bool, cpus: nat, actions: seq<Action>)
    requires Legal(Start(nodes, workers, ignoreFailures, cpus), actions)
    ensures var s := After(Start(nodes, workers, ignoreFailures, cpus), actions);
            && s.pool.completed + s.pool.failed + Total(BusyOne, s.pool.workers) == s.pool.next <= nodes
            && |Unresolved(s)| <= workers
            && !s.monitor.crashed
  {
    var s0 := Start(nodes, workers, ignoreFailures, cpus);
    StartIsGood(nodes, workers, ignoreFailures, cpus);
    RunKeeps(s0, actions);
    SameSetting(s0, actions);
    var s := After(s0, actions);
    AtMostWorkers(Unresolved(s), s.ledger.fates, workers);
  }

  /** Unless failures are ignored, no worker counts a second error, so the failure
      count never exceeds the number of workers. */
  lemma FailuresAtMostWorkers(nodes: nat, workers: nat, cpus: nat, actions: seq<Action>)
    requires Legal(Start(nodes, workers, false, cpus), actions)
    ensures var s := After(Start(nodes, workers, false, cpus), actions);
            && s.pool.failed <= workers
            && |s.ledger.failures| == workers
            && forall w :: 0 <= w < workers ==> s.ledger.failures[w] <= 1
  {
    var s0 := Start(nodes, workers, false, cpus);
    StartIsGood(nodes, workers, false, cpus);
    RunKeeps(s0, actions);
    SameSetting(s0, actions);
    TotalAtMost(Id, After(s0, actions).ledger.failures, 1);
  }

  /** Once a failure is counted no further node is told to deploy. */
  lemma {:induction false} NoVisitAfterFailure(s: State, actions: seq<Action>)
    requires Tripped(s.pool) && Legal(s, actions)
    ensures Tripped(After(s, actions).pool)
    ensures After(s, actions).ledger.visited == s.ledger.visited
  {
    if actions != [] {
      NoVisitAfterFailure(s, actions[..|actions| - 1]);
    }
  }

  // ---------------------------------------------------------------------------
  // Done channels

  /** A done channel that is closed stays as it is. */
  lemma DoneActionFinal(s: State, a: Action, t: nat)
    requires Invariant(s) && Enabled(s, a) && t < |s.monitor.done| && s.monitor.done[t] != Open
    ensures |Do(s, a).monitor.done| == |s.monitor.done| && Do(s, a).monitor.done[t] == s.monitor.done[t]
  {
    if a.Watch? {
      WatchHandled(s.monitor, s.pool.queueClosed, a.watch);
    }
  }

  /** Each task is resolved at most once: its done channel is closed at most once,
      with at most the one error, and never changes after that. */
  lemma {:induction false} DoneIsFinal(s: State, actions: seq<Action>, t: nat)
    requires Invariant(s) && Legal(s, actions) && t < |s.monitor.done| && s.monitor.done[t] != Open
    ensures !After(s, actions).monitor.crashed
    ensures t < |After(s, actions).monitor.done| && After(s, actions).monitor.done[t] == s.monitor.done[t]
  {
    RunKeeps(s, actions);
    if actions != [] {
      var front := actions[..|actions| - 1];
      DoneIsFinal(s, front, t);
      RunKeeps(s, front);
      DoneActionFinal(After(s, front), actions[|actions| - 1], t);
    }
  }

  // ---------------------------------------------------------------------------
  // Passes of the checker

  function Checked(m: Monitor): set<nat> {
    if m.round.None? then {} else At(m.round.value, Checking)
  }

  lemma ChecksNext(m: Monitor, queueClosed: bool, step: WatchStep)
    requires WatchEnabled(m, queueClosed, step) && |Checked(m)| <= m.cpus
    ensures |Checked(DoWatch(m, step))| <= m.cpus
  {
    var m' := DoWatch(m, step);
    match step {
      case Dispatch(t) => assert Checked(m') == Checked(m) + {t};
      case Report(t, _) => assert Checked(m') == Checked(m) - {t};
      case Notice => assert Checked(m') == Checked(m);
      case _ => assert Checked(m') == {};
    }
  }

  /** No more tasks are being checked at once than there are checkers. */
  lemma {:induction false} ChecksAtMostCpus(s: State, actions: seq<Action>)
    requires Legal(s, actions) && |Checked(s.monitor)| <= s.monitor.cpus
    ensures |Checked(After(s, actions).monitor)| <= s.monitor.cpus
  {
    if actions != [] {
      var front, a := actions[..|actions| - 1], actions[|actions| - 1];
      ChecksAtMostCpus(s, front);
      SameSetting(s, front);
      if a.Watch? {
        ChecksNext(After(s, front).monitor, After(s, front).pool.queueClosed, a.watch);
      }
    }
  }

  // ---------------------------------------------------------------------------
  // The end of a run

  /** The node was told to deploy and its task was closed without an error. */
  predicate Deployed(s: State, op: nat) {
    op in s.ledger.visited && op < |s.monitor.done| && s.monitor.done[op] == ClosedNil
  }

  lemma SettledMeansCounted(s: State)
    requires Invariant(s) && s.monitor.returned
    ensures AllExited(s.pool) && s.pool.next == |s.ledger.fates|
    ensures forall op :: 0 <= op < |s.ledger.fates| ==> !s.ledger.fates[op].Held? && !s.ledger.fates[op].Queued?
    ensures s.pool.completed + s.pool.failed == |s.ledger.fates|
  {
    TotalZero(BusyOne, s.pool.workers);
  }

  lemma {:induction false} NoFailureCounted(fates: seq<Fate>)
    ensures Total(FailedOne, fates) >= 0
    ensures Total(FailedOne, fates) == 0 <==> forall op :: 0 <= op < |fates| ==> !fates[op].Failed?
  {
    if fates != [] {
      NoFailureCounted(fates[1..]);
      assert forall op :: 0 < op < |fates| ==> fates[op] == fates[1..][op - 1];
    }
  }

  /** When the monitor returns, the workers are done, every node is counted, and every
      task the monitor received is resolved. No failure is counted exactly when every
      single node was deployed to; if failures are ignored, the failures counted are
      exactly the nodes that were not. */
  lemma Outcome(nodes: nat, workers: nat, ignoreFailures: bool, cpus: nat, actions: seq<Action>)
    requires Legal(Start(nodes, workers, ignoreFailures, cpus), actions)
    requires After(Start(nodes, workers, ignoreFailures, cpus), actions).monitor.returned
    ensures var s := After(Start(nodes, workers, ignoreFailures, cpus), actions);
            && AllExited(s.pool)
            && s.pool.completed + s.pool.failed == nodes == |s.monitor.done|
            && (forall t :: t in s.ledger.handed ==> t < nodes && s.monitor.done[t] != Open)
            && (s.pool.failed == 0 <==> forall op :: 0 <= op < nodes ==> Deployed(s, op))
            && (ignoreFailures ==> s.pool.failed == |Undeployed(s)|)
  {
    var s0 := Start(nodes, workers, ignoreFailures, cpus);
    StartIsGood(nodes, workers, ignoreFailures, cpus);
    RunKeeps(s0, actions);
    SameSetting(s0, actions);
    var s := After(s0, actions);
    SettledMeansCounted(s);
    NoFailureCounted(s.ledger.fates);
    DeployedMeansSucceeded(s);
    if s.pool.failed == 0 {
      forall op | 0 <= op < nodes
        ensures s.ledger.fates[op].Succeeded?
      {
        assert !s.ledger.fates[op].Skipped?;
      }
    }
    if ignoreFailures {
      forall op | 0 <= op < nodes
        ensures s.ledger.fates[op].Failed? <==> !Deployed(s, op)
      {
        assert !s.ledger.fates[op].Skipped?;
      }
      FailedCount(s.ledger.fates);
      assert Undeployed(s) == FailedNodes(s.ledger.fates);
    }
  }

  function Undeployed(s: State): set<nat> {
    set op | 0 <= op < |s.monitor.done| && !Deployed(s, op)
  }

  function FailedNodes(fates: seq<Fate>): set<nat> {
    set op | 0 <= op < |fates| && fates[op].Failed?
  }

  lemma {:induction false} FailedCount(fates: seq<Fate>)
    ensures Total(FailedOne, fates) == |FailedNodes(fates)|
    decreases |fates|
  {
    if fates == [] {
      assert FailedNodes(fates) == {};
    } else {
      var n := |fates| - 1;
      var front, last := fates[..n], [fates[n]];
      FailedCount(front);
      assert fates == front + last;
      TotalOfAppend(front, fates[n]);
      assert FailedNodes(fates) == FailedNodes(front) + if fates[n].Failed? then {n} else {};
    }
  }

  lemma {:induction false} TotalOfAppend(fates: seq<Fate>, f: Fate)
    ensures Total(FailedOne, fates + [f]) == Total(FailedOne, fates) + FailedOne(f)
  {
    if fates == [] {
      assert [f][1..] == [] && [] + [f] == [f];
    } else {
      TotalOfAppend(fates[1..], f);
      assert (fates + [f])[1..] == fates[1..] + [f];
    }
  }

  lemma DeployedMeansSucceeded(s: State)
    requires Invariant(s) && s.monitor.returned
    ensures forall op :: 0 <= op < |s.ledger.fates| ==> (s.ledger.fates[op].Succeeded? <==> Deployed(s, op))
  {
    SettledMeansCounted(s);
    forall op | 0 <= op < |s.ledger.fates|
      ensures s.ledger.fates[op].Succeeded? <==> Deployed(s, op)
    {
      assert HonestFate(s.ledger.fates[op], s.monitor.done[op], op in s.ledger.handed);
    }
  }
}
