/** Every run of a rollout: the goroutine that hands out nodes, the workers, the
    monitor and its checkers (deployment/deploy.go, deployment/deploy.monitors.go).
    Nodes are numbered in the order they are handed out; contexts never expire. */
module Rollout {
  import opened Base

  /** Where a worker is, with the node it works on. */
  datatype Worker =
    | Idle                    // waiting on the operation channel
    | Holding(op: nat)        // has an operation, has not looked at the failure count
    | Skipping(op: nat)       // saw a failure, has not counted the node yet
    | Visiting(op: nat)       // telling the node to deploy
    | Sending(op: nat)        // handing its task to the monitor
    | Waiting(op: nat)        // waiting for its task to be resolved
    | Failing(op: nat)        // has an error, has not counted it yet
    | Finishing(op: nat)      // has a success, has not counted it yet
    | Exited

  /** The workers and what they share; `next` is how many operations were taken. */
  datatype Pool = Pool(
    ignoreFailures: bool,
    workers: seq<Worker>,
    next: nat,
    channelClosed: bool,
    queueClosed: bool,
    completed: nat,
    failed: nat)

  /** A task's done channel: open, closed empty, or closed with one error in it. */
  datatype Done = Open | ClosedNil | ClosedErr

  /** Where a task is in a pass of the checker. */
  datatype Spot = Unsent | Checking | Kept

  /** A pass of the checker: the tasks it has not resolved. */
  type Round = map<nat, Spot>

  function At(r: Round, spot: Spot): set<nat> {
    set t | t in r && r[t] == spot
  }

  /** `noticed`: the monitor saw its queue closed. `returned`: it returned nil.
      `crashed`: a done channel was closed twice. */
  datatype Monitor = Monitor(
    cpus: nat,
    done: seq<Done>,
    outstanding: set<nat>,
    round: Option<Round>,
    noticed: bool,
    returned: bool,
    crashed: bool)

  /** What became of a node, as the counters see it. */
  datatype Fate = Queued | Held(worker: nat) | Skipped | Succeeded | Failed

  /** Bookkeeping of this model, not of the program: the fate of each node, the nodes
      told to deploy, the tasks the monitor received, the errors each worker counted. */
  datatype Ledger = Ledger(fates: seq<Fate>, visited: set<nat>, handed: set<nat>, failures: seq<nat>)

  datatype State = State(pool: Pool, monitor: Monitor, ledger: Ledger)

  function Start(nodes: nat, workers: nat, ignoreFailures: bool, cpus: nat): State {
    State(Pool(ignoreFailures, seq(workers, _ => Idle), 0, false, false, 0, 0),
          Monitor(cpus, seq(nodes, _ => Open), {}, None, false, false, false),
          Ledger(seq(nodes, _ => Queued), {}, {}, seq(workers, _ => 0)))
  }

  // ---------------------------------------------------------------------------
  // Actions

  datatype WorkStep =
    | Take | PassCheck | TripCheck | CountSkip | VisitOk | VisitErr
    | Hand | Learn | CountFailure | CountSuccess | Exit

  datatype Verdict = Completed | FailedDeploy | NotYet

  datatype WatchStep =
    | Notice
    | StartRound
    | Dispatch(t: nat)
    | Report(t: nat, verdict: Verdict)
    | EndRound(departed: set<nat>)

  datatype Action =
    | Work(w: nat, step: WorkStep)
    | CloseChannel
    | CloseQueue
    | Watch(watch: WatchStep)

  predicate Tripped(p: Pool) {
    p.failed > 0 && !p.ignoreFailures
  }

  predicate AllExited(p: Pool) {
    forall w :: 0 <= w < |p.workers| ==> p.workers[w].Exited?
  }

  predicate WorkEnabled(s: State, x: Worker, step: WorkStep) {
    match step
    case Take => x.Idle? && s.pool.next < |s.ledger.fates|
    case PassCheck => x.Holding? && !Tripped(s.pool)
    case TripCheck => x.Holding? && Tripped(s.pool)
    case CountSkip => x.Skipping?
    case VisitOk => x.Visiting?
    case VisitErr => x.Visiting?
    case Hand => x.Sending? && s.monitor.round.None? && !s.monitor.noticed
    case Learn => x.Waiting? && x.op < |s.monitor.done| && s.monitor.done[x.op] != Open
    case CountFailure => x.Failing?
    case CountSuccess => x.Finishing?
    case Exit => x.Idle? && s.pool.channelClosed
  }

  predicate WatchEnabled(m: Monitor, queueClosed: bool, step: WatchStep) {
    match step
    case Notice => queueClosed && !m.noticed && m.round.None?
    case StartRound => m.round.None? && !m.returned
    case Dispatch(t) => m.round.Some? && t in At(m.round.value, Unsent) && |At(m.round.value, Checking)| < m.cpus
    case Report(t, _) => m.round.Some? && t in At(m.round.value, Checking)
    case EndRound(_) => m.round.Some? && forall t :: t in m.round.value ==> m.round.value[t] == Kept
  }

  predicate Enabled(s: State, a: Action) {
    match a
    case Work(w, step) => w < |s.pool.workers| && WorkEnabled(s, s.pool.workers[w], step)
    case CloseChannel => !s.pool.channelClosed && s.pool.next == |s.ledger.fates|
    case CloseQueue => !s.pool.queueClosed && s.pool.channelClosed && AllExited(s.pool)
    case Watch(step) => WatchEnabled(s.monitor, s.pool.queueClosed, step)
  }

  predicate Busy(x: Worker) {
    !x.Idle? && !x.Exited?
  }

  /** Where a step takes the worker. */
  function NextWorker(s: State, x: Worker, step: WorkStep): Worker
    requires WorkEnabled(s, x, step)
  {
    match step
    case Take => Holding(s.pool.next)
    case PassCheck => Visiting(x.op)
    case TripCheck => Skipping(x.op)
    case VisitOk => Sending(x.op)
    case VisitErr => Failing(x.op)
    case Hand => Waiting(x.op)
    case Learn => if s.monitor.done[x.op] == ClosedErr then Failing(x.op) else Finishing(x.op)
    case Exit => Exited
    case _ => Idle
  }

  /** What a step does to the fate of the node in hand, if anything. */
  function NextFate(w: nat, step: WorkStep): Option<Fate> {
    match step
    case Take => Some(Held(w))
    case CountSkip => Some(Skipped)
    case CountSuccess => Some(Succeeded)
    case CountFailure => Some(Failed)
    case _ => None
  }

  function InHand(s: State, x: Worker): nat {
    if Busy(x) then x.op else s.pool.next
  }

  function SetAt<T>(s: seq<T>, i: nat, x: T): seq<T> {
    if i < |s| then s[i := x] else s
  }

  function DoWork(s: State, w: nat, step: WorkStep): State
    requires w < |s.pool.workers| && WorkEnabled(s, s.pool.workers[w], step)
  {
    var p, m, l := s.pool, s.monitor, s.ledger;
    var x := p.workers[w];
    var op := InHand(s, x);
    State(
      p.(workers := p.workers[w := NextWorker(s, x, step)],
         next := if step.Take? then p.next + 1 else p.next,
         completed := if step.CountSkip? || step.CountSuccess? then p.completed + 1 else p.completed,
         failed := if step.CountFailure? then p.failed + 1 else p.failed),
      if step.Hand? then m.(outstanding := m.outstanding + {op}) else m,
      Ledger(
        if NextFate(w, step).Some? then SetAt(l.fates, op, NextFate(w, step).value) else l.fates,
        if step.PassCheck? then l.visited + {op} else l.visited,
        if step.Hand? then l.handed + {op} else l.handed,
        if step.CountFailure? && w < |l.failures| then l.failures[w := l.failures[w] + 1] else l.failures))
  }

  /** Closes done channels; closing one that is closed is the crash. */
  function Close(m: Monitor, ts: set<nat>, d: Done): (r: Monitor)
    ensures r.(done := m.done, crashed := m.crashed) == m
    ensures |r.done| == |m.done|
  {
    if forall t :: t in ts ==> t < |m.done| && m.done[t] == Open then
      m.(done := seq(|m.done|, i requires 0 <= i < |m.done| => if i in ts then d else m.done[i]))
    else m.(crashed := true)
  }

  function DoWatch(m: Monitor, step: WatchStep): Monitor
    requires step.Dispatch? || step.Report? || step.EndRound? ==> m.round.Some?
  {
    match step
    case Notice => m.(noticed := true)
    case StartRound => m.(round := Some(map t | t in m.outstanding :: Unsent))
    case Dispatch(t) => m.(round := Some(m.round.value[t := Checking]))
    case Report(t, verdict) =>
      if verdict == NotYet then m.(round := Some(m.round.value[t := Kept]))
      else Close(m.(round := Some(m.round.value - {t})), {t}, if verdict == Completed then ClosedNil else ClosedErr)
    case EndRound(departed) =>
      var kept := m.round.value.Keys;
      Close(m.(round := None, outstanding := kept - departed, returned := m.noticed && kept - departed == {}),
            kept * departed, ClosedNil)
  }

  function Do(s: State, a: Action): State
    requires Enabled(s, a)
  {
    match a
    case Work(w, step) => DoWork(s, w, step)
    case CloseChannel => s.(pool := s.pool.(channelClosed := true))
    case CloseQueue => s.(pool := s.pool.(queueClosed := true))
    case Watch(step) => s.(monitor := DoWatch(s.monitor, step))
  }

  // ---------------------------------------------------------------------------
  // The invariant, in parts

  /** Each node taken is held by one worker or settled; each worker holds one node. */
  predicate Owned(p: Pool, fates: seq<Fate>) {
    && p.next <= |fates|
    && (forall op :: 0 <= op < |fates| ==> (fates[op].Queued? <==> p.next <= op))
    && (forall w :: 0 <= w < |p.workers| && Busy(p.workers[w]) ==>
          p.workers[w].op < p.next && fates[p.workers[w].op] == Held(w))
    && (forall op :: 0 <= op < |fates| && fates[op].Held? ==>
          fates[op].worker < |p.workers| && Busy(p.workers[fates[op].worker]) && p.workers[fates[op].worker].op == op)
  }

  function HolderOf(fates: seq<Fate>, op: nat): Option<nat> {
    if op < |fates| && fates[op].Held? then Some(fates[op].worker) else None
  }

  predicate WaitedFor(s: State, op: nat) {
    match HolderOf(s.ledger.fates, op)
    case None => false
    case Some(w) => w < |s.pool.workers| && s.pool.workers[w] == Waiting(op)
  }

  /** The tasks in the monitor's hands. */
  function Watched(m: Monitor): set<nat> {
    match m.round
    case None => m.outstanding
    case Some(r) => r.Keys
  }

  /** The worker has not handed its task over. */
  predicate Early(x: Worker) {
    x.Holding? || x.Skipping? || x.Visiting? || x.Sending?
  }

  /** The monitor holds exactly the open tasks that are waited for, and the tasks not
      handed over are open. */
  ghost predicate Watching(s: State) {
    && |s.monitor.done| == |s.ledger.fates|
    && !s.monitor.crashed
    && (forall op: nat :: op in Watched(s.monitor) <==> WaitedFor(s, op) && s.monitor.done[op] == Open)
    && (forall op :: 0 <= op < |s.ledger.fates| && s.ledger.fates[op].Queued? ==> s.monitor.done[op] == Open)
    && (forall w :: 0 <= w < |s.pool.workers| && Early(s.pool.workers[w]) && s.pool.workers[w].op < |s.monitor.done| ==>
          s.monitor.done[s.pool.workers[w].op] == Open)
  }

  /** The channels close in order. */
  predicate Gated(s: State) {
    && (s.pool.channelClosed ==> s.pool.next == |s.ledger.fates|)
    && (forall w :: 0 <= w < |s.pool.workers| && s.pool.workers[w].Exited? ==> s.pool.channelClosed)
    && (s.pool.queueClosed ==> s.pool.channelClosed && AllExited(s.pool))
    && (s.monitor.noticed ==> s.pool.queueClosed)
    && (s.monitor.returned ==> s.monitor.noticed && s.monitor.round.None? && s.monitor.outstanding == {})
  }

  function One(b: bool): int {
    if b then 1 else 0
  }

  function HeldOne(f: Fate): int {
    One(f.Held?)
  }

  function CompletedOne(f: Fate): int {
    One(f.Skipped? || f.Succeeded?)
  }

  function FailedOne(f: Fate): int {
    One(f.Failed?)
  }

  function BusyOne(x: Worker): int {
    One(Busy(x))
  }

  function Id(n: nat): int {
    n
  }

  /** The counters count what they stand for. */
  predicate Counted(p: Pool, fates: seq<Fate>) {
    && p.completed == Total(CompletedOne, fates)
    && p.failed == Total(FailedOne, fates)
    && Total(BusyOne, p.workers) == Total(HeldOne, fates)
    && p.completed + p.failed + Total(BusyOne, p.workers) == p.next
  }

  /** The worker is past the check of the failure count. */
  predicate Late(x: Worker) {
    x.Visiting? || x.Sending? || x.Waiting? || x.Failing? || x.Finishing?
  }

  /** A worker that counted an error never passes the check again. */
  predicate FailFast(p: Pool, failures: seq<nat>) {
    && |failures| == |p.workers|
    && p.failed == Total(Id, failures)
    && (!p.ignoreFailures ==> forall w :: 0 <= w < |p.workers| ==>
          failures[w] <= 1 && (failures[w] == 1 ==> !Late(p.workers[w])))
  }

  /** The node was told to deploy. */
  predicate Reached(p: Pool, f: Fate) {
    || f.Succeeded? || f.Failed?
    || (f.Held? && f.worker < |p.workers| && Late(p.workers[f.worker]))
  }

  /** The nodes visited are those past the check, and skipping has a cause. */
  predicate Tracked(p: Pool, l: Ledger) {
    && (forall op :: op in l.visited ==> op < |l.fates|)
    && (forall op :: 0 <= op < |l.fates| ==> (op in l.visited <==> Reached(p, l.fates[op])))
    && (forall op :: 0 <= op < |l.fates| && l.fates[op].Skipped? ==> Tripped(p))
    && (forall w :: 0 <= w < |p.workers| && p.workers[w].Skipping? ==> Tripped(p))
  }

  /** What the done channel of a task says about its node, and the other way round. */
  predicate HonestFate(f: Fate, d: Done, handed: bool) {
    match f
    case Queued => !handed
    case Held(_) => true
    case Skipped => !handed
    case Succeeded => handed && d == ClosedNil
    case Failed => if handed then d == ClosedErr else d == Open
  }

  predicate HonestWorker(x: Worker, d: Done, handed: bool) {
    match x
    case Waiting(_) => handed
    case Finishing(_) => handed && d == ClosedNil
    case Failing(_) => if handed then d == ClosedErr else d == Open
    case _ => !handed
  }

  predicate Honest(s: State) {
    && |s.monitor.done| == |s.ledger.fates|
    && (forall op :: op in s.ledger.handed ==> op < |s.monitor.done|)
    && (forall op :: 0 <= op < |s.ledger.fates| ==>
          HonestFate(s.ledger.fates[op], s.monitor.done[op], op in s.ledger.handed))
    && (forall w :: 0 <= w < |s.pool.workers| && Busy(s.pool.workers[w]) && s.pool.workers[w].op < |s.monitor.done| ==>
          HonestWorker(s.pool.workers[w], s.monitor.done[s.pool.workers[w].op],
                       s.pool.workers[w].op in s.ledger.handed))
  }

  ghost predicate Invariant(s: State) {
    && Owned(s.pool, s.ledger.fates)
    && Watching(s)
    && Gated(s)
    && Counted(s.pool, s.ledger.fates)
    && FailFast(s.pool, s.ledger.failures)
    && Tracked(s.pool, s.ledger)
    && Honest(s)
  }

  // ---------------------------------------------------------------------------
  // Workers keep it

  predicate Moves(step: WorkStep) {
    step.PassCheck? || step.TripCheck? || step.VisitOk? || step.VisitErr? || step.Hand? || step.Learn?
  }

  predicate Settles(step: WorkStep) {
    step.CountSkip? || step.CountFailure? || step.CountSuccess?
  }

  predicate CanWork(s: State, w: nat, step: WorkStep) {
    w < |s.pool.workers| && WorkEnabled(s, s.pool.workers[w], step)
  }

  lemma OwnedReplace(p: Pool, p': Pool, fates: seq<Fate>, w: nat)
    requires Owned(p, fates) && w < |p.workers| && |p'.workers| == |p.workers| && p'.next == p.next
    requires Busy(p.workers[w]) && Busy(p'.workers[w]) && p'.workers[w].op == p.workers[w].op
    requires forall v :: 0 <= v < |p.workers| && v != w ==> p'.workers[v] == p.workers[v]
    ensures Owned(p', fates)
  {
  }

  lemma OwnedMove(s: State, w: nat, step: WorkStep)
    requires Owned(s.pool, s.ledger.fates) && CanWork(s, w, step) && Moves(step)
    ensures Owned(DoWork(s, w, step).pool, DoWork(s, w, step).ledger.fates)
  {
    var s', x := DoWork(s, w, step), s.pool.workers[w];
    var x' := NextWorker(s, x, step);
    assert Busy(x) && Busy(x') && x'.op == x.op;
    OwnedReplace(s.pool, s'.pool, s.ledger.fates, w);
  }

  lemma OwnedSettle(s: State, w: nat, step: WorkStep)
    requires Owned(s.pool, s.ledger.fates) && CanWork(s, w, step) && Settles(step)
    ensures Owned(DoWork(s, w, step).pool, DoWork(s, w, step).ledger.fates)
  {
  }

  lemma OwnedTake(s: State, w: nat)
    requires Owned(s.pool, s.ledger.fates) && CanWork(s, w, Take)
    ensures Owned(DoWork(s, w, Take).pool, DoWork(s, w, Take).ledger.fates)
  {
  }

  lemma OwnedExit(s: State, w: nat)
    requires Owned(s.pool, s.ledger.fates) && CanWork(s, w, Exit)
    ensures Owned(DoWork(s, w, Exit).pool, DoWork(s, w, Exit).ledger.fates)
  {
  }

  lemma OwnedWork(s: State, w: nat, step: WorkStep)
    requires Owned(s.pool, s.ledger.fates) && CanWork(s, w, step)
    ensures Owned(DoWork(s, w, step).pool, DoWork(s, w, step).ledger.fates)
  {
    if Moves(step) {
      OwnedMove(s, w, step);
    } else if Settles(step) {
      OwnedSettle(s, w, step);
    } else if step.Take? {
      OwnedTake(s, w);
    } else {
      OwnedExit(s, w);
    }
  }

  lemma FateTotals(fates: seq<Fate>, op: nat, f: Fate)
    requires op < |fates|
    ensures Total(HeldOne, fates[op := f]) == Total(HeldOne, fates) - HeldOne(fates[op]) + HeldOne(f)
    ensures Total(CompletedOne, fates[op := f]) ==
            Total(CompletedOne, fates) - CompletedOne(fates[op]) + CompletedOne(f)
    ensures Total(FailedOne, fates[op := f]) == Total(FailedOne, fates) - FailedOne(fates[op]) + FailedOne(f)
  {
    TotalUpdate(HeldOne, fates, op, f);
    TotalUpdate(CompletedOne, fates, op, f);
    TotalUpdate(FailedOne, fates, op, f);
  }

  lemma CountedWork(s: State, w: nat, step: WorkStep)
    requires Owned(s.pool, s.ledger.fates) && Counted(s.pool, s.ledger.fates) && CanWork(s, w, step)
    ensures Counted(DoWork(s, w, step).pool, DoWork(s, w, step).ledger.fates)
  {
    var x := s.pool.workers[w];
    var x', op := NextWorker(s, x, step), InHand(s, x);
    TotalUpdate(BusyOne, s.pool.workers, w, x');
    if NextFate(w, step).Some? {
      var f := NextFate(w, step).value;
      FateTotals(s.ledger.fates, op, f);
      assert DoWork(s, w, step).ledger.fates == s.ledger.fates[op := f];
      assert step.Take? ==> s.ledger.fates[op] == Queued && f.Held? && !Busy(x) && Busy(x');
      assert !step.Take? ==> s.ledger.fates[op] == Held(w) && !f.Held? && Busy(x) && !Busy(x');
    } else {
      assert DoWork(s, w, step).ledger.fates == s.ledger.fates;
      assert Busy(x) == Busy(x');
    }
  }

  lemma FailFastWork(s: State, w: nat, step: WorkStep)
    requires FailFast(s.pool, s.ledger.failures) && CanWork(s, w, step)
    ensures FailFast(DoWork(s, w, step).pool, DoWork(s, w, step).ledger.failures)
  {
    if step.CountFailure? {
      TotalUpdate(Id, s.ledger.failures, w, s.ledger.failures[w] + 1);
    } else if step.PassCheck? && !s.pool.ignoreFailures {
      TotalMember(Id, s.ledger.failures, w);
    }
  }

  lemma TrackedMove(s: State, w: nat, step: WorkStep)
    requires Owned(s.pool, s.ledger.fates) && Tracked(s.pool, s.ledger) && CanWork(s, w, step) && Moves(step)
    ensures Tracked(DoWork(s, w, step).pool, DoWork(s, w, step).ledger)
  {
  }

  lemma TrackedSettle(s: State, w: nat, step: WorkStep)
    requires Owned(s.pool, s.ledger.fates) && Tracked(s.pool, s.ledger) && CanWork(s, w, step) && Settles(step)
    ensures Tracked(DoWork(s, w, step).pool, DoWork(s, w, step).ledger)
  {
  }

  lemma TrackedOther(s: State, w: nat, step: WorkStep)
    requires Owned(s.pool, s.ledger.fates) && Tracked(s.pool, s.ledger) && CanWork(s, w, step)
    requires step.Take? || step.Exit?
    ensures Tracked(DoWork(s, w, step).pool, DoWork(s, w, step).ledger)
  {
  }

  lemma GatedWork(s: State, w: nat, step: WorkStep)
    requires Owned(s.pool, s.ledger.fates) && Gated(s) && CanWork(s, w, step)
    ensures Gated(DoWork(s, w, step))
  {
  }

  lemma HonestHand(s: State, w: nat)
    requires Owned(s.pool, s.ledger.fates) && Watching(s) && Honest(s) && CanWork(s, w, Hand)
    ensures Honest(DoWork(s, w, Hand))
  {
  }

  lemma HonestQuiet(s: State, w: nat, step: WorkStep)
    requires Owned(s.pool, s.ledger.fates) && Watching(s) && Honest(s) && CanWork(s, w, step)
    requires Moves(step) && !step.Hand?
    ensures Honest(DoWork(s, w, step))
  {
    var s', x := DoWork(s, w, step), s.pool.workers[w];
    assert s'.monitor == s.monitor && s'.ledger.fates == s.ledger.fates && s'.ledger.handed == s.ledger.handed;
    assert HonestWorker(NextWorker(s, x, step), s.monitor.done[x.op], x.op in s.ledger.handed);
  }

  lemma HonestMove(s: State, w: nat, step: WorkStep)
    requires Owned(s.pool, s.ledger.fates) && Watching(s) && Honest(s) && CanWork(s, w, step) && Moves(step)
    ensures Honest(DoWork(s, w, step))
  {
    if step.Hand? {
      HonestHand(s, w);
    } else {
      HonestQuiet(s, w, step);
    }
  }

  lemma HonestSettle(s: State, w: nat, step: WorkStep)
    requires Owned(s.pool, s.ledger.fates) && Watching(s) && Honest(s) && CanWork(s, w, step) && Settles(step)
    ensures Honest(DoWork(s, w, step))
  {
  }

  lemma HonestOther(s: State, w: nat, step: WorkStep)
    requires Owned(s.pool, s.ledger.fates) && Watching(s) && Honest(s) && CanWork(s, w, step)
    requires step.Take? || step.Exit?
    ensures Honest(DoWork(s, w, step))
  {
  }

  lemma WatchingMove(s: State, w: nat, step: WorkStep)
    requires Owned(s.pool, s.ledger.fates) && Watching(s) && CanWork(s, w, step) && Moves(step) && !step.Hand?
    ensures Watching(DoWork(s, w, step))
  {
  }

  lemma WatchingHand(s: State, w: nat)
    requires Owned(s.pool, s.ledger.fates) && Watching(s) && CanWork(s, w, Hand)
    ensures Watching(DoWork(s, w, Hand))
  {
  }

  lemma WatchingSettle(s: State, w: nat, step: WorkStep)
    requires Owned(s.pool, s.ledger.fates) && Watching(s) && CanWork(s, w, step) && Settles(step)
    ensures Watching(DoWork(s, w, step))
  {
  }

  lemma WatchingOther(s: State, w: nat, step: WorkStep)
    requires Owned(s.pool, s.ledger.fates) && Watching(s) && CanWork(s, w, step)
    requires step.Take? || step.Exit?
    ensures Watching(DoWork(s, w, step))
  {
  }

  lemma WorkKeeps(s: State, w: nat, step: WorkStep)
    requires Invariant(s) && CanWork(s, w, step)
    ensures Invariant(DoWork(s, w, step))
  {
    OwnedWork(s, w, step);
    GatedWork(s, w, step);
    CountedWork(s, w, step);
    FailFastWork(s, w, step);
    if Moves(step) {
      TrackedMove(s, w, step);
      HonestMove(s, w, step);
      if step.Hand? {
        WatchingHand(s, w);
      } else {
        WatchingMove(s, w, step);
      }
    } else if Settles(step) {
      TrackedSettle(s, w, step);
      HonestSettle(s, w, step);
      WatchingSettle(s, w, step);
    } else {
      TrackedOther(s, w, step);
      HonestOther(s, w, step);
      WatchingOther(s, w, step);
    }
  }

  // ---------------------------------------------------------------------------
  // The monitor keeps it

  predicate CanWatch(s: State, step: WatchStep) {
    WatchEnabled(s.monitor, s.pool.queueClosed, step)
  }

  /** Tasks in the monitor's hands have open done channels. */
  predicate InHandOpen(m: Monitor) {
    forall t :: t in Watched(m) ==> t < |m.done| && m.done[t] == Open
  }

  /** Tasks move between the hands of the monitor, or leave them, once, with their
      done channel closed; no other channel changes. */
  ghost predicate Handled(m: Monitor, m': Monitor) {
    && |m'.done| == |m.done|
    && m'.crashed == m.crashed
    && (forall t :: t in Watched(m') <==> t in Watched(m) && t < |m'.done| && m'.done[t] == Open)
    && (forall t :: 0 <= t < |m.done| && t !in Watched(m) ==> m'.done[t] == m.done[t])
  }

  lemma ReportHandled(m: Monitor, t: nat, verdict: Verdict)
    requires InHandOpen(m) && WatchEnabled(m, true, Report(t, verdict))
    ensures Handled(m, DoWatch(m, Report(t, verdict)))
  {
    if verdict != NotYet {
      assert Watched(DoWatch(m, Report(t, verdict))) == Watched(m) - {t};
    }
  }

  lemma CloseMany(m: Monitor, ts: set<nat>, d: Done)
    requires forall t :: t in ts ==> t < |m.done| && m.done[t] == Open
    ensures Close(m, ts, d).crashed == m.crashed
    ensures forall i :: 0 <= i < |m.done| ==> Close(m, ts, d).done[i] == if i in ts then d else m.done[i]
  {
  }

  lemma EndRoundHandled(m: Monitor, departed: set<nat>)
    requires InHandOpen(m) && WatchEnabled(m, true, EndRound(departed))
    ensures Handled(m, DoWatch(m, EndRound(departed)))
  {
    var kept := m.round.value.Keys;
    var m0 := m.(round := None, outstanding := kept - departed, returned := m.noticed && kept - departed == {});
    assert Watched(m) == kept;
    CloseMany(m0, kept * departed, ClosedNil);
    var m' := DoWatch(m, EndRound(departed));
    assert m' == Close(m0, kept * departed, ClosedNil);
    assert Watched(m') == kept - departed;
  }

  lemma WatchHandled(m: Monitor, queueClosed: bool, step: WatchStep)
    requires InHandOpen(m) && WatchEnabled(m, queueClosed, step)
    ensures Handled(m, DoWatch(m, step))
  {
    match step {
      case Report(t, verdict) => ReportHandled(m, t, verdict);
      case EndRound(departed) => EndRoundHandled(m, departed);
      case _ => assert Watched(DoWatch(m, step)) == Watched(m);
    }
  }

  lemma WatchingHandled(s: State, m': Monitor)
    requires Owned(s.pool, s.ledger.fates) && Watching(s) && Handled(s.monitor, m')
    ensures Watching(s.(monitor := m'))
  {
    assert forall op: nat :: WaitedFor(s.(monitor := m'), op) == WaitedFor(s, op);
  }

  lemma HonestHandled(s: State, m': Monitor)
    requires Owned(s.pool, s.ledger.fates) && Watching(s) && Honest(s) && Handled(s.monitor, m')
    ensures Honest(s.(monitor := m'))
  {
  }

  lemma GatedWatch(s: State, step: WatchStep)
    requires Gated(s) && CanWatch(s, step)
    ensures Gated(s.(monitor := DoWatch(s.monitor, step)))
  {
  }

  lemma WatchKeeps(s: State, step: WatchStep)
    requires Invariant(s) && CanWatch(s, step)
    ensures Invariant(s.(monitor := DoWatch(s.monitor, step)))
  {
    var m' := DoWatch(s.monitor, step);
    WatchHandled(s.monitor, s.pool.queueClosed, step);
    WatchingHandled(s, m');
    HonestHandled(s, m');
    GatedWatch(s, step);
  }
}
