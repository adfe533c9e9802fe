/** What a rollout reports is what the nodes answered (deployment/deploy.go,
    deployment/deploy.monitors.go). */
module RolloutAnswers {
  import opened Base
  import opened Rollout
  import opened RolloutRuns
  import Tally = Worker

  /** What was heard of one node: whether telling it to deploy gave an error or not,
      which verdicts its checks gave, and whether it was gone at the end of a pass. */
  datatype Heard = Heard(refused: bool, accepted: bool, completed: bool, failed: bool, departed: bool)

  const NOTHING: Heard := Heard(false, false, false, false, false)

  /** Its deployment ran to an end, or it left while its deployment was watched. */
  predicate Ended(h: Heard) {
    h.completed || h.departed
  }

  predicate Erred(h: Heard) {
    h.refused || h.failed
  }

  function HearsWorker(op: nat, step: WorkStep, t: nat, h: Heard): Heard {
    match step
    case VisitOk => if op == t then h.(accepted := true) else h
    case VisitErr => if op == t then h.(refused := true) else h
    case _ => h
  }

  function HearsMonitor(m: Monitor, step: WatchStep, t: nat, h: Heard): Heard {
    match step
    case Report(u, Completed) => if u == t then h.(completed := true) else h
    case Report(u, FailedDeploy) => if u == t then h.(failed := true) else h
    case EndRound(departed) => if t in Watched(m) && t in departed then h.(departed := true) else h
    case _ => h
  }

  function Hears(s: State, a: Action, t: nat, h: Heard): Heard
    requires Enabled(s, a)
  {
    match a
    case Work(w, step) => HearsWorker(InHand(s, s.pool.workers[w]), step, t, h)
    case Watch(step) => HearsMonitor(s.monitor, step, t, h)
    case _ => h
  }

  /** What a run heard of node `t`. */
  function HeardIn(s: State, actions: seq<Action>, t: nat): Heard
    requires Legal(s, actions)
  {
    if actions == [] then NOTHING
    else
      var front, a := actions[..|actions| - 1], actions[|actions| - 1];
      Hears(After(s, front), a, t, HeardIn(s, front, t))
  }

  // ---------------------------------------------------------------------------
  // The state remembers it

  predicate ChannelSays(d: Done, h: Heard) {
    match d
    case Open => !Ended(h) && !h.failed
    case ClosedNil => Ended(h) && !h.failed
    case ClosedErr => h.failed && !Ended(h)
  }

  /** An error is from the node itself or, if it was told, from a check. */
  predicate ErrorSays(h: Heard) {
    if h.refused then !h.accepted else h.accepted && h.failed
  }

  predicate WorkerSays(x: Worker, h: Heard) {
    match x
    case Sending(_) => h == NOTHING.(accepted := true)
    case Waiting(_) => h.accepted && !h.refused
    case Finishing(_) => h.accepted && !h.refused && Ended(h)
    case Failing(_) => ErrorSays(h)
    case _ => h == NOTHING
  }

  predicate FateSays(p: Pool, f: Fate, h: Heard) {
    match f
    case Held(w) => w < |p.workers| && WorkerSays(p.workers[w], h)
    case Succeeded => h.accepted && !h.refused && Ended(h)
    case Failed => ErrorSays(h)
    case _ => h == NOTHING
  }

  predicate Remembers(s: State, t: nat, h: Heard) {
    && t < |s.monitor.done| && t < |s.ledger.fates|
    && ChannelSays(s.monitor.done[t], h)
    && FateSays(s.pool, s.ledger.fates[t], h)
  }

  /** A worker's step on the node it has in hand. */
  lemma OwnRemembers(s: State, w: nat, step: WorkStep, t: nat, h: Heard)
    requires CanWork(s, w, step) && step != Exit && InHand(s, s.pool.workers[w]) == t
    requires Remembers(s, t, h)
    requires s.ledger.fates[t] == if step.Take? then Queued else Held(w)
    ensures Remembers(DoWork(s, w, step), t, HearsWorker(t, step, t, h))
  {
  }

  /** A step on another node. */
  lemma OtherRemembers(s: State, w: nat, step: WorkStep, t: nat, h: Heard)
    requires CanWork(s, w, step) && (step == Exit || InHand(s, s.pool.workers[w]) != t)
    requires Remembers(s, t, h) && s.ledger.fates[t] != Held(w)
    ensures Remembers(DoWork(s, w, step), t, h)
  {
  }

  lemma WorkRemembers(s: State, w: nat, step: WorkStep, t: nat, h: Heard)
    requires Owned(s.pool, s.ledger.fates) && CanWork(s, w, step) && Remembers(s, t, h)
    ensures Remembers(DoWork(s, w, step), t, Hears(s, Work(w, step), t, h))
  {
    if step != Exit && InHand(s, s.pool.workers[w]) == t {
      OwnRemembers(s, w, step, t, h);
    } else {
      OtherRemembers(s, w, step, t, h);
    }
  }

  lemma ChannelRemembers(m: Monitor, queueClosed: bool, step: WatchStep, t: nat, h: Heard)
    requires InHandOpen(m) && WatchEnabled(m, queueClosed, step) && t < |m.done| && ChannelSays(m.done[t], h)
    ensures t < |DoWatch(m, step).done| && ChannelSays(DoWatch(m, step).done[t], HearsMonitor(m, step, t, h))
    ensures t !in Watched(m) ==> HearsMonitor(m, step, t, h) == h
  {
    if step.EndRound? {
      var kept := m.round.value.Keys;
      var m0 := m.(round := None, outstanding := kept - step.departed,
                   returned := m.noticed && kept - step.departed == {});
      CloseMany(m0, kept * step.departed, ClosedNil);
    } else if step.Report? {
      assert step.t in Watched(m);
    }
  }

  /** A task the monitor holds is one that is waited for. */
  lemma WatchRemembers(s: State, step: WatchStep, t: nat, h: Heard)
    requires Watching(s) && CanWatch(s, step) && Remembers(s, t, h)
    ensures Remembers(s.(monitor := DoWatch(s.monitor, step)), t, Hears(s, Watch(step), t, h))
  {
    ChannelRemembers(s.monitor, s.pool.queueClosed, step, t, h);
    if t in Watched(s.monitor) {
      assert WaitedFor(s, t);
    }
  }

  lemma {:induction false} RunRemembers(s: State, actions: seq<Action>, t: nat)
    requires Invariant(s) && Legal(s, actions) && Remembers(s, t, NOTHING)
    ensures Remembers(After(s, actions), t, HeardIn(s, actions, t))
  {
    if actions != [] {
      var front, a := actions[..|actions| - 1], actions[|actions| - 1];
      RunRemembers(s, front, t);
      RunKeeps(s, front);
      var s1, h := After(s, front), HeardIn(s, front, t);
      match a {
        case Work(w, step) => WorkRemembers(s1, w, step, t, h);
        case Watch(step) => WatchRemembers(s1, step, t, h);
        case _ =>
      }
    }
  }

  // ---------------------------------------------------------------------------
  // What the counters count

  function ErredNodes(s: State, actions: seq<Action>, nodes: nat): set<nat>
    requires Legal(s, actions)
  {
    set t | 0 <= t < nodes && Erred(HeardIn(s, actions, t))
  }

  /** At every moment of every run: a node counted as failed gave an error when told, or
      accepted and a check said that its deployment failed; one counted as a success and
      not skipped accepted, and a check said that it completed or it left. */
  lemma CountedAsAnswered(nodes: nat, workers: nat, ignoreFailures: bool, cpus: nat, actions: seq<Action>, t: nat)
    requires Legal(Start(nodes, workers, ignoreFailures, cpus), actions) && t < nodes
    ensures var s0 := Start(nodes, workers, ignoreFailures, cpus);
            var s, h := After(s0, actions), HeardIn(s0, actions, t);
            && t < |s.ledger.fates|
            && (s.ledger.fates[t].Failed? ==> ErrorSays(h))
            && (s.ledger.fates[t].Succeeded? ==> h.accepted && Ended(h) && !Erred(h))
            && (s.ledger.fates[t].Skipped? ==> h == NOTHING)
  {
    var s0 := Start(nodes, workers, ignoreFailures, cpus);
    StartIsGood(nodes, workers, ignoreFailures, cpus);
    RunRemembers(s0, actions, t);
    SameSetting(s0, actions);
  }

  ghost predicate AllSucceeded(s: State, actions: seq<Action>, nodes: nat)
    requires Legal(s, actions)
  {
    forall t :: 0 <= t < nodes ==> var h := HeardIn(s, actions, t); h.accepted && Ended(h)
  }

  /** When the monitor has returned, the failures counted are the nodes that gave an
      error, and the nodes deployed to are those that accepted and completed or left. */
  lemma OutcomeIsAnswers(nodes: nat, workers: nat, ignoreFailures: bool, cpus: nat, actions: seq<Action>)
    requires Legal(Start(nodes, workers, ignoreFailures, cpus), actions)
    requires After(Start(nodes, workers, ignoreFailures, cpus), actions).monitor.returned
    ensures var s0 := Start(nodes, workers, ignoreFailures, cpus);
            var s := After(s0, actions);
            && s.pool.failed == |ErredNodes(s0, actions, nodes)|
            && s.pool.completed == nodes - |ErredNodes(s0, actions, nodes)|
            && forall t :: 0 <= t < nodes ==>
                 (Deployed(s, t) <==> HeardIn(s0, actions, t).accepted && Ended(HeardIn(s0, actions, t)))
  {
    var s0 := Start(nodes, workers, ignoreFailures, cpus);
    var s := After(s0, actions);
    StartIsGood(nodes, workers, ignoreFailures, cpus);
    RunKeeps(s0, actions);
    SameSetting(s0, actions);
    SettledMeansCounted(s);
    DeployedMeansSucceeded(s);
    forall t | 0 <= t < nodes
      ensures s.ledger.fates[t].Failed? <==> Erred(HeardIn(s0, actions, t))
      ensures Deployed(s, t) <==> HeardIn(s0, actions, t).accepted && Ended(HeardIn(s0, actions, t))
    {
      RunRemembers(s0, actions, t);
    }
    FailedCount(s.ledger.fates);
    assert FailedNodes(s.ledger.fates) == ErredNodes(s0, actions, nodes);
  }

  /** `Complete` at the end of a rollout: success is reported exactly when failures are
      ignored or every node accepted and then completed or left, and the number reported
      is that of the nodes that gave an error or failed. */
  method Report(c: Tally.Counters, ignoreFailures: bool,
                ghost nodes: nat, ghost workers: nat, ghost cpus: nat, ghost actions: seq<Action>)
      returns (failures: nat, success: bool)
    requires Legal(Start(nodes, workers, ignoreFailures, cpus), actions)
    requires After(Start(nodes, workers, ignoreFailures, cpus), actions).monitor.returned
    requires c.failed == After(Start(nodes, workers, ignoreFailures, cpus), actions).pool.failed
    ensures var s0 := Start(nodes, workers, ignoreFailures, cpus);
            var s := After(s0, actions);
            && (success <==> ignoreFailures || forall op :: 0 <= op < nodes ==> Deployed(s, op))
            && (success <==> ignoreFailures || AllSucceeded(s0, actions, nodes))
            && failures == |ErredNodes(s0, actions, nodes)|
            && (ignoreFailures ==> failures == |Undeployed(s)|)
            && (!ignoreFailures ==> failures <= workers)
  {
    Outcome(nodes, workers, ignoreFailures, cpus, actions);
    OutcomeIsAnswers(nodes, workers, ignoreFailures, cpus, actions);
    if !ignoreFailures {
      FailuresAtMostWorkers(nodes, workers, cpus, actions);
    }
    failures, success := c.Complete(ignoreFailures);
  }
}
