/** The health-check monitor, step by step (deployment/deploy.monitors.go and the
    task handling of deployment/deploy.go). */
module HealthMonitor {
  import opened Base

  /** What a visit to a node says. */
  datatype Report = VisitError | Completed | Failed | Deploying

  predicate Resolves(r: Report) {
    r.Completed? || r.Failed?
  }

  /** A task. `done` may hold one error; closing it twice, or sending to it when it
      is closed, would crash. */
  class Pending {
    const name: string
    var closed: bool
    var failure: bool

    constructor (name: string)
      ensures this.name == name && !closed && !failure
    {
      this.name, closed, failure := name, false, false;
    }

    predicate Open()
      reads this
    {
      !closed && !failure
    }

    method SendError()
      requires !closed && !failure
      modifies this`failure
      ensures failure
    {
      failure := true;
    }

    method Close()
      requires !closed
      modifies this`closed
      ensures closed
    {
      closed := true;
    }
  }

  predicate Distinct<T(==)>(s: seq<T>) {
    forall i, j :: 0 <= i < j < |s| ==> s[i] != s[j]
  }

  predicate AllOpen(ts: seq<Pending>)
    reads ts
  {
    forall i :: 0 <= i < |ts| ==> ts[i].Open()
  }

  /** Returns whether a task is still unresolved; a resolved one is closed, with an
      error in it if the deployment failed. */
  method Healthcheck(task: Pending, report: Report) returns (unresolved: bool)
    requires task.Open()
    modifies task
    ensures unresolved <==> !Resolves(report)
    ensures if unresolved then task.Open() else task.closed && (task.failure <==> report.Failed?)
  {
    match report {
      case Completed =>
        task.Close();
        unresolved := false;
      case Failed =>
        task.SendError();
        task.Close();
        unresolved := false;
      case _ =>
        unresolved := true;
    }
  }

  /** The task is closed as its node answered, with an error exactly if that failed. */
  predicate AsAnswered(answers: Pending -> Report, t: Pending)
    reads t
  {
    Resolves(answers(t)) && t.closed && (t.failure <==> answers(t).Failed?)
  }

  function RemoveAt<T>(s: seq<T>, i: nat): seq<T>
    requires i < |s|
  {
    s[..i] + s[i + 1..]
  }

  lemma MultisetRemoveAt<T>(s: seq<T>, i: nat)
    requires i < |s|
    ensures multiset(s) == multiset(RemoveAt(s, i)) + multiset{s[i]}
  {
    assert s == s[..i] + [s[i]] + s[i + 1..];
  }

  ghost function Hands<T>(a: seq<T>, b: seq<T>, c: seq<T>, d: seq<T>): multiset<T> {
    multiset(a) + multiset(b) + multiset(c) + multiset(d)
  }

  /** Moving one element to the next sequence keeps what the four hold together. */
  lemma HandsSend<T>(a: seq<T>, b: seq<T>, c: seq<T>, d: seq<T>)
    requires a != []
    ensures Hands(a[1..], b + [a[0]], c, d) == Hands(a, b, c, d)
  {
    assert a == [a[0]] + a[1..];
  }

  lemma HandsAgain<T>(a: seq<T>, b: seq<T>, c: seq<T>, d: seq<T>, i: nat)
    requires i < |b|
    ensures Hands(a, RemoveAt(b, i), c + [b[i]], d) == Hands(a, b, c, d)
  {
    MultisetRemoveAt(b, i);
  }

  lemma HandsTake<T>(a: seq<T>, b: seq<T>, c: seq<T>, d: seq<T>, i: nat)
    requires i < |c|
    ensures Hands(a, b, RemoveAt(c, i), d + [c[i]]) == Hands(a, b, c, d)
  {
    MultisetRemoveAt(c, i);
  }

  /** Taking one away. */
  lemma HandsDrop<T>(a: seq<T>, b: seq<T>, c: seq<T>, d: seq<T>, i: nat)
    requires i < |b|
    ensures Hands(a, b, c, d) == Hands(a, RemoveAt(b, i), c, d) + multiset{b[i]}
  {
    MultisetRemoveAt(b, i);
  }

  lemma SplitHands<T>(a: seq<T>, b: seq<T>, c: seq<T>, d: seq<T>, e: multiset<T>)
    ensures Hands(a, b, c, d) + e == multiset(d) + (e + Hands(a, b, c, []))
  {
  }

  lemma Regroup<T>(a: multiset<T>, b: multiset<T>, x: T)
    ensures a + multiset{x} + b == a + (b + multiset{x})
    ensures (a + (b + multiset{x}))[x] == 1 ==> x !in a && x !in b
  {
  }

  /** One element leaves the four for good. */
  lemma TakenOut<T>(all: multiset<T>, a: seq<T>, b: seq<T>, c: seq<T>, d: seq<T>, e: multiset<T>, i: nat)
    requires i < |b| && all == Hands(a, b, c, d) + e && forall t :: t in all ==> all[t] == 1
    ensures all == Hands(a, RemoveAt(b, i), c, d) + (e + multiset{b[i]})
    ensures |e + multiset{b[i]}| == |e| + 1
    ensures b[i] in all && b[i] in Hands(a, b, c, d) && b[i] !in Hands(a, RemoveAt(b, i), c, d) && b[i] !in e
    ensures forall t :: t in Hands(a, RemoveAt(b, i), c, d) ==> t in Hands(a, b, c, d)
  {
    HandsDrop(a, b, c, d, i);
    Regroup(Hands(a, RemoveAt(b, i), c, d), e, b[i]);
  }

  lemma {:induction false} DistinctMultiset<T>(s: seq<T>)
    requires Distinct(s)
    ensures forall x :: x in multiset(s) ==> multiset(s)[x] == 1
  {
    if s != [] {
      DistinctMultiset(s[1..]);
      assert s == [s[0]] + s[1..];
      assert s[0] !in s[1..];
    }
  }

  /** One pass of the checker: tasks not sent yet, tasks at a checker, tasks a checker
      is done with and did not resolve, the number it resolved and not yet reported,
      and the tasks taken in again. */
  class Pass {
    const cpus: nat
    const answers: Pending -> Report
    ghost const all: multiset<Pending>
    var unsent: seq<Pending>
    var checking: seq<Pending>
    var unresolved: seq<Pending>
    var resolved: nat
    var remaining: seq<Pending>
    ghost var finished: multiset<Pending>

    ghost function InHand(): multiset<Pending>
      reads this
    {
      Hands(unsent, checking, unresolved, remaining)
    }

    /** Every task is in one place, and no more are at checkers than there are. */
    ghost predicate Counted()
      reads this
    {
      && |checking| + |unresolved| + resolved <= cpus
      && resolved <= |finished|
      && all == InHand() + finished
      && (forall t :: t in all ==> all[t] == 1)
    }

    /** The tasks in hand are open, and those a checker is done with are of nodes that are
        not; the others are closed, as their nodes answered. */
    ghost predicate Valid()
      reads this, set t | t in all
    {
      && Counted()
      && (forall t :: t in InHand() ==> t.Open())
      && (forall t :: t in finished ==> AsAnswered(answers, t))
      && Quiet(answers, unresolved) && Quiet(answers, remaining)
    }

    function ToGo(): nat
      reads this
    {
      |unsent| + |checking| + |unresolved| + resolved
    }

    function Measure(): nat
      reads this
    {
      3 * |unsent| + 2 * |checking| + |unresolved| + resolved
    }

    constructor (outstanding: seq<Pending>, cpus: nat, answers: Pending -> Report)
      requires Distinct(outstanding) && AllOpen(outstanding)
      ensures Valid() && all == multiset(outstanding) && this.cpus == cpus && this.answers == answers
      ensures ToGo() == |outstanding| && Measure() == 3 * |outstanding|
      ensures remaining == [] && finished == multiset{}
    {
      this.cpus, this.answers := cpus, answers;
      all, finished := multiset(outstanding), multiset{};
      unsent, checking, unresolved, resolved, remaining := outstanding, [], [], 0, [];
      DistinctMultiset(outstanding);
    }

    /** The next task goes to a free checker. */
    method Send()
      requires Valid() && unsent != [] && |checking| + |unresolved| + resolved < cpus
      modifies this`unsent, this`checking
      ensures Valid() && ToGo() == old(ToGo()) && Measure() == old(Measure()) - 1
    {
      HandsSend(unsent, checking, unresolved, remaining);
      unsent, checking := unsent[1..], checking + [unsent[0]];
      assert InHand() == old(InHand());
    }

    method Requeue(i: nat)
      requires Valid() && i < |checking| && !Resolves(answers(checking[i]))
      modifies this`checking, this`unresolved
      ensures Valid() && ToGo() == old(ToGo()) && Measure() == old(Measure()) - 1
    {
      HandsAgain(unsent, checking, unresolved, remaining, i);
      checking, unresolved := RemoveAt(checking, i), unresolved + [checking[i]];
      assert InHand() == old(InHand());
    }

    /** A checker finishes with a task it could not resolve. */
    method CheckAgain(i: nat)
      requires Valid() && i < |checking| && !Resolves(answers(checking[i]))
      modifies this`checking, this`unresolved, checking[i]
      ensures Valid() && ToGo() == old(ToGo()) && Measure() == old(Measure()) - 1
    {
      var again := Healthcheck(checking[i], answers(checking[i]));
      Requeue(i);
    }

    /** A checker finishes with a task and resolves it. */
    method CheckResolve(i: nat)
      requires Valid() && i < |checking| && Resolves(answers(checking[i]))
      modifies this`checking, this`resolved, this`finished, checking[i]
      ensures Valid() && ToGo() == old(ToGo()) && Measure() == old(Measure()) - 1
      ensures finished == old(finished) + multiset{old(checking[i])}
    {
      var task := checking[i];
      Detach(i);
      var again := Healthcheck(task, answers(task));
    }

    /** A task that is about to be resolved leaves the ones in hand. */
    method Detach(i: nat)
      requires Valid() && i < |checking|
      modifies this`checking, this`resolved, this`finished
      ensures Counted() && ToGo() == old(ToGo()) && Measure() == old(Measure()) - 1
      ensures finished == old(finished) + multiset{old(checking[i])}
      ensures old(checking[i]).Open()
      ensures forall t :: t in InHand() ==> t.Open() && t != old(checking[i])
      ensures forall t :: t in finished ==> t == old(checking[i]) || AsAnswered(answers, t)
      ensures Quiet(answers, unresolved) && Quiet(answers, remaining)
    {
      TakenOut(all, unsent, checking, unresolved, remaining, finished, i);
      checking, resolved, finished := RemoveAt(checking, i), resolved + 1, finished + multiset{checking[i]};
    }

    /** A task a checker did not resolve is taken in. */
    method Receive(i: nat)
      requires Valid() && i < |unresolved|
      modifies this`unresolved, this`remaining
      ensures Valid() && ToGo() == old(ToGo()) - 1 && Measure() == old(Measure()) - 1
    {
      HandsTake(unsent, checking, unresolved, remaining, i);
      unresolved, remaining := RemoveAt(unresolved, i), remaining + [unresolved[i]];
      assert InHand() == old(InHand());
    }

    /** The report of a resolved task is taken in. */
    method ReceiveNil()
      requires Valid() && resolved > 0
      modifies this`resolved
      ensures Valid() && ToGo() == old(ToGo()) - 1 && Measure() == old(Measure()) - 1
    {
      resolved := resolved - 1;
    }

    /** The tasks that have not come back. */
    ghost function NotBack(): multiset<Pending>
      reads this
    {
      Hands(unsent, checking, unresolved, [])
    }

    /** Where the tasks are, whenever it ends. */
    lemma Ends()
      requires Valid()
      ensures all == multiset(remaining) + (finished + NotBack())
      ensures AllOpen(remaining)
      ensures forall t :: t in NotBack() ==> t.Open()
    {
      SplitHands(unsent, checking, unresolved, remaining, finished);
      assert forall i :: 0 <= i < |remaining| ==> remaining[i] in multiset(remaining);
      assert forall t :: t in NotBack() ==> t in InHand();
      assert forall t :: t in multiset(remaining) ==> t in InHand();
    }

    /** How many tasks have not come back. */
    lemma Missing()
      requires Valid()
      ensures |NotBack()| <= Measure() <= 3 * |NotBack()| + |finished|
      ensures Measure() == 0 ==> NotBack() == multiset{}
    {
      assert |NotBack()| == |unsent| + |checking| + |unresolved|;
    }

    /** Whatever can happen next does; returns whether a checker reported. There is always
        something that can happen. */
    method Turn() returns (reported: bool)
      requires Valid() && cpus > 0 && ToGo() > 0
      modifies this, set t | t in all
      ensures Valid() && Measure() == old(Measure()) - 1
      ensures ToGo() == old(ToGo()) - if reported then 1 else 0
    {
      reported := false;
      if
      case unsent != [] && |checking| + |unresolved| + resolved < cpus =>
        Send();
      case checking != [] =>
        var i :| 0 <= i < |checking|;
        assert checking[i] in InHand() && checking[i] in all;
        if Resolves(answers(checking[i])) {
          CheckResolve(i);
        } else {
          CheckAgain(i);
        }
      case unresolved != [] =>
        var i :| 0 <= i < |unresolved|;
        Receive(i);
        reported := true;
      case resolved > 0 =>
        ReceiveNil();
        reported := true;
    }
  }

  /** A pass over so many tasks takes three steps for each; one whose context ends later,
      or not at all, is not cut short. */
  predicate NotCut(patience: Option<nat>, tasks: nat) {
    patience.None? || patience.value >= 3 * tasks
  }

  /** No node of some tasks is done. */
  predicate Quiet(answers: Pending -> Report, tasks: seq<Pending>) {
    forall t :: t in tasks ==> !Resolves(answers(t))
  }

  /** `checker.run` with its checkers, in any order the scheduler may pick: it never
      blocks, it ends, and every task comes back open, its node not being done, or is
      closed as its node answered; none is lost and none is there twice. If its context
      ends after so many steps, the tasks that have not come back are lost: none if the
      pass is not cut short, some if it is and no node was done, and in between at least
      a third of the steps missing, but for those that would have reported tasks that are
      closed. */
  method Run(outstanding: seq<Pending>, cpus: nat, patience: Option<nat>, answers: Pending -> Report)
      returns (remaining: seq<Pending>, ghost finished: multiset<Pending>, ghost lost: multiset<Pending>)
    requires cpus > 0 && Distinct(outstanding) && AllOpen(outstanding)
    modifies outstanding
    ensures multiset(outstanding) == multiset(remaining) + (finished + lost)
    ensures AllOpen(remaining) && Quiet(answers, remaining)
    ensures forall t :: t in finished ==> AsAnswered(answers, t)
    ensures forall t :: t in lost ==> t.Open()
    ensures NotCut(patience, |outstanding|) ==> lost == multiset{}
    ensures !NotCut(patience, |outstanding|) ==>
            |lost| <= 3 * |outstanding| - patience.value <= 3 * |lost| + |finished|
    ensures patience == Some(0) ==> remaining == [] && finished == multiset{}
  {
    var p := new Pass(outstanding, cpus, answers);
    var pending := |outstanding|;
    var steps := 0;
    while pending > 0 && (patience.Some? ==> steps < patience.value)
      invariant p.Valid() && p.all == multiset(outstanding) && p.cpus == cpus && p.answers == answers
      invariant pending == p.ToGo()
      invariant steps + p.Measure() == 3 * |outstanding|
      invariant patience.Some? ==> steps <= patience.value
      invariant steps == 0 ==> p.remaining == [] && p.finished == multiset{}
      decreases p.Measure()
    {
      var reported := p.Turn();
      if reported {
        pending := pending - 1;
      }
      steps := steps + 1;
    }
    remaining, finished, lost := p.remaining, p.finished, p.NotBack();
    p.Ends();
    p.Missing();
  }

  /** Drops the tasks of nodes that left, closing them without an error. */
  method DropDeparted(departed: set<string>, outstanding: seq<Pending>) returns (remaining: seq<Pending>)
    requires Distinct(outstanding) && AllOpen(outstanding)
    modifies outstanding
    ensures Distinct(remaining) && AllOpen(remaining)
    ensures forall t :: t in remaining <==> t in outstanding && t.name !in departed
    ensures forall t :: t in outstanding && t.name in departed ==> t.closed && !t.failure
    ensures |remaining| <= |outstanding|
    ensures departed == {} ==> remaining == outstanding
  {
    if departed == {} {
      return outstanding;
    }
    remaining := [];
    for i := 0 to |outstanding|
      invariant Distinct(remaining) && AllOpen(remaining) && |remaining| <= i
      invariant forall t :: t in remaining <==> t in outstanding[..i] && t.name !in departed
      invariant forall t :: t in outstanding[..i] && t.name in departed ==> t.closed && !t.failure
      invariant forall k :: i <= k < |outstanding| ==> outstanding[k].Open()
    {
      var o := outstanding[i];
      assert outstanding[..i + 1] == outstanding[..i] + [o];
      assert o !in outstanding[..i];
      if o.name in departed {
        o.Close();
      } else {
        remaining := remaining + [o];
      }
    }
    assert outstanding[..|outstanding|] == outstanding;
  }

  // ---------------------------------------------------------------------------

  /** What the loop of `Await` can be woken by. The context may end in the middle of a
      check, after so many steps of it; `answers` are what the nodes say in it. */
  datatype Event =
    | Arrive(task: Pending)
    | QueueClosed
    | Departed(name: string)
    | PerformCheck(patience: Option<nat>, answers: Pending -> Report)
    | Cancelled

  datatype Verdict = ReturnedNil | ReturnedError | StillWaiting

  function Arriving(e: Event): seq<Pending> {
    if e.Arrive? then [e.task] else []
  }

  /** The tasks that arrive among some events. */
  function Arrivals(events: seq<Event>): seq<Pending> {
    if events == [] then [] else Arrivals(events[..|events| - 1]) + Arriving(events[|events| - 1])
  }

  lemma {:induction false} ArrivalsPrefix(events: seq<Event>, i: nat)
    requires i <= |events|
    ensures Arrivals(events[..i]) <= Arrivals(events)
  {
    if i < |events| {
      var front := events[..|events| - 1];
      ArrivalsPrefix(front, i);
      assert front[..i] == events[..i];
    } else {
      assert events[..i] == events;
    }
  }

  /** The task that arrives next is the first of those to come. */
  lemma ArrivalsNext(events: seq<Event>, i: nat, coming: seq<Pending>)
    requires i < |events| && Arrivals(events[..i]) + coming == Arrivals(events)
    ensures Arrivals(events[..i + 1]) == Arrivals(events[..i]) + Arriving(events[i])
    ensures events[i].Arrive? ==> coming != [] && coming[0] == events[i].task
  {
    var now := Arrivals(events[..i]);
    ArrivalsPrefix(events, i + 1);
    assert events[..i + 1][..i] == events[..i];
    assert now + Arriving(events[i]) <= now + coming;
    if events[i].Arrive? {
      assert (now + [events[i].task])[|now|] == (now + coming)[|now|];
    }
  }

  lemma StillDistinct<T>(all: seq<T>, some: seq<T>, rest: multiset<T>)
    requires multiset(all) == multiset(some) + rest
    requires forall x :: x in multiset(all) ==> multiset(all)[x] == 1
    ensures Distinct(some)
    ensures forall x :: x in some ==> x in all
    ensures forall x :: x in all ==> x in some || x in rest
  {
    forall i, j | 0 <= i < j < |some|
      ensures some[i] != some[j]
    {
      MultisetRemoveAt(some, j);
      assert some[i] == RemoveAt(some, j)[i];
      assert some[i] in multiset(RemoveAt(some, j));
      assert some[j] in multiset(all);
    }
    forall x | x in some
      ensures x in all
    {
      assert x in multiset(some) && x in multiset(all);
    }
    forall x | x in all
      ensures x in some || x in rest
    {
      assert x in multiset(all);
    }
  }

  /** What a task comes to. */
  datatype Fate = StillOpen | ClosedNil | ClosedErr

  predicate HasFate(t: Pending, f: Fate)
    reads t
  {
    (t.closed <==> f != StillOpen) && (t.failure <==> f == ClosedErr)
  }

  /** What a check makes of a task: its node's answer decides if that is done, its
      departure if not. */
  function CheckFate(answers: Pending -> Report, departed: set<string>, t: Pending): Fate {
    match answers(t)
    case Completed => ClosedNil
    case Failed => ClosedErr
    case _ => if t.name in departed then ClosedNil else StillOpen
  }

  method CheckAndDrop(departed: set<string>, outstanding: seq<Pending>, cpus: nat,
                      patience: Option<nat>, answers: Pending -> Report)
      returns (remaining: seq<Pending>, ghost lost: set<Pending>)
    requires cpus > 0 && Distinct(outstanding) && AllOpen(outstanding)
    modifies outstanding
    ensures Distinct(remaining) && AllOpen(remaining) && |remaining| <= |outstanding|
    ensures forall t :: t in remaining ==> t in outstanding && t !in lost
    ensures forall t :: t in lost ==> t in outstanding && t.Open()
    ensures forall t :: t in outstanding ==>
              t in lost || (HasFate(t, CheckFate(answers, departed, t)) && (t in remaining <==> t.Open()))
    ensures NotCut(patience, |outstanding|) ==> lost == {}
    ensures !NotCut(patience, |outstanding|) && Quiet(answers, outstanding) ==> lost != {}
    ensures NotCut(patience, |outstanding|) && Quiet(answers, outstanding) && departed == {} ==>
            |remaining| == |outstanding|
    ensures patience == Some(0) ==> remaining == []
  {
    remaining, lost := CheckAll(outstanding, cpus, patience, answers);
    ghost var back := remaining;
    remaining := DropDeparted(departed, remaining);
    assert forall t :: t in outstanding && t !in lost && t !in back ==> AsAnswered(answers, t);
  }

  /** One pass, in terms of the tasks it leaves where. */
  method CheckAll(outstanding: seq<Pending>, cpus: nat, patience: Option<nat>, answers: Pending -> Report)
      returns (remaining: seq<Pending>, ghost lost: set<Pending>)
    requires cpus > 0 && Distinct(outstanding) && AllOpen(outstanding)
    modifies outstanding
    ensures Distinct(remaining) && AllOpen(remaining) && Quiet(answers, remaining) && |remaining| <= |outstanding|
    ensures forall t :: t in remaining ==> t in outstanding && t !in lost
    ensures forall t :: t in lost ==> t in outstanding && t.Open()
    ensures forall t :: t in outstanding ==> t in remaining || t in lost || AsAnswered(answers, t)
    ensures NotCut(patience, |outstanding|) ==> lost == {}
    ensures !NotCut(patience, |outstanding|) && Quiet(answers, outstanding) ==> lost != {}
    ensures NotCut(patience, |outstanding|) && Quiet(answers, outstanding) ==> |remaining| == |outstanding|
    ensures patience == Some(0) ==> remaining == []
  {
    ghost var finished, left;
    remaining, finished, left := Run(outstanding, cpus, patience, answers);
    DistinctMultiset(outstanding);
    StillDistinct(outstanding, remaining, finished + left);
    LostAreApart(outstanding, remaining, finished, left);
    SizesAdd(outstanding, remaining, finished, left);
    lost := set t | t in left;
    if Quiet(answers, outstanding) {
      QuietFinishesNone(outstanding, remaining, finished, left, answers);
    }
    if left != multiset{} {
      ghost var t :| t in left;
      assert t in lost;
    }
  }

  lemma QuietFinishesNone(all: seq<Pending>, some: seq<Pending>, finished: multiset<Pending>, left: multiset<Pending>,
                          answers: Pending -> Report)
    requires multiset(all) == multiset(some) + (finished + left) && Quiet(answers, all)
    requires forall t :: t in finished ==> Resolves(answers(t))
    ensures finished == multiset{}
  {
    forall t
      ensures t !in finished
    {
      assert t in finished ==> t in multiset(all) && t in all;
    }
  }

  lemma SizesAdd<T>(all: seq<T>, some: seq<T>, finished: multiset<T>, left: multiset<T>)
    requires multiset(all) == multiset(some) + (finished + left)
    ensures |all| == |some| + |finished| + |left|
  {
    assert |multiset(all)| == |all| && |multiset(some)| == |some|;
  }

  lemma LostAreApart(all: seq<Pending>, some: seq<Pending>, finished: multiset<Pending>, left: multiset<Pending>)
    requires multiset(all) == multiset(some) + (finished + left)
    requires forall x :: x in multiset(all) ==> multiset(all)[x] == 1
    ensures forall x :: x in left ==> x in all && x !in some
  {
    forall x | x in left
      ensures x in all && x !in some
    {
      assert x in multiset(all) && multiset(all)[x] == 1;
      assert multiset(some)[x] == 0;
      assert x !in multiset(some);
    }
  }

  /** The variables of the loop of `Await`, the tasks it received so far, those still to
      come and those lost in checks that were cancelled. */
  class Watch {
    var departed: set<string>
    var outstanding: seq<Pending>
    var open: bool
    ghost const all: seq<Pending>
    ghost var received: seq<Pending>
    ghost var coming: seq<Pending>
    ghost var lost: set<Pending>

    ghost predicate Valid()
      reads this, received, outstanding, coming, lost
    {
      && received + coming == all
      && Distinct(coming) && AllOpen(coming)
      && Distinct(outstanding) && AllOpen(outstanding)
      && (forall t :: t in coming ==> t !in received)
      && (forall t :: t in outstanding ==> t in received && t !in lost)
      && (forall t :: t in lost ==> t in received && t.Open())
      && (forall t :: t in received ==> t in outstanding || t in lost || t.closed)
      && |outstanding| <= |received|
    }

    constructor (ghost tasks: seq<Pending>)
      requires Distinct(tasks) && AllOpen(tasks)
      ensures Valid() && open && received == [] && all == coming == tasks && lost == {}
      ensures outstanding == [] && departed == {}
    {
      all := tasks;
      departed, outstanding, open, received, coming, lost := {}, [], true, [], tasks, {};
    }

    method Receive(task: Pending)
      requires Valid() && coming != [] && coming[0] == task
      modifies this`outstanding, this`received, this`coming
      ensures Valid() && received == old(received) + [task] && outstanding == old(outstanding) + [task]
      ensures coming == old(coming)[1..]
    {
      assert (received + [task]) + coming[1..] == received + coming;
      outstanding, received, coming := outstanding + [task], received + [task], coming[1..];
    }

    method Check(cpus: nat, patience: Option<nat>, answers: Pending -> Report)
      requires Valid() && cpus > 0
      modifies this`outstanding, this`lost, outstanding
      ensures Valid() && old(lost) <= lost
      ensures NotCut(patience, |old(outstanding)|) ==> lost == old(lost)
      ensures forall t :: t in old(outstanding) ==> t in lost || HasFate(t, CheckFate(answers, departed, t))
      ensures !NotCut(patience, |old(outstanding)|) && Quiet(answers, old(outstanding)) ==> lost != {}
      ensures NotCut(patience, |old(outstanding)|) && Quiet(answers, old(outstanding)) && departed == {} ==>
              |outstanding| == |old(outstanding)|
      ensures patience == Some(0) ==> outstanding == []
    {
      ghost var more;
      outstanding, more := CheckAndDrop(departed, outstanding, cpus, patience, answers);
      lost := lost + more;
    }

    lemma HoldsOnlyTasks()
      requires Valid()
      ensures forall t :: t in outstanding ==> t in all
    {
      assert forall t :: t in received ==> t in received + coming;
    }

    /** With nothing outstanding the tasks received are closed but for those lost. */
    lemma EndsNil()
      requires Valid() && outstanding == []
      ensures lost == {} ==> forall t :: t in received ==> t.closed
      ensures lost != {} ==> exists t :: t in received && t in all && t.Open()
    {
      if lost != {} {
        var t :| t in lost;
        assert t in received + coming;
      }
    }

    /** One turn of the loop. */
    method Handle(e: Event, cpus: nat) returns (v: Verdict)
      requires Valid() && cpus > 0 && (e.Arrive? ==> coming != [] && coming[0] == e.task)
      modifies this, outstanding
      ensures Valid()
      ensures received == old(received) + Arriving(e)
      ensures open <==> old(open) && !e.QueueClosed?
      ensures v == ReturnedError <==> e.Cancelled?
      ensures v == ReturnedNil <==> e.PerformCheck? && !open && outstanding == []
      ensures departed == old(departed) + if e.Departed? then {e.name} else {}
      ensures old(lost) <= lost
      ensures !e.PerformCheck? ==> lost == old(lost) && outstanding == old(outstanding) + Arriving(e)
      ensures !e.PerformCheck? ==> coming == old(coming)[|Arriving(e)|..]
      ensures e.PerformCheck? ==> coming == old(coming)
      ensures e.PerformCheck? && NotCut(e.patience, |old(outstanding)|) ==> lost == old(lost)
      ensures e.PerformCheck? ==>
              forall t :: t in old(outstanding) ==> t in lost || HasFate(t, CheckFate(e.answers, departed, t))
      ensures e.PerformCheck? && !NotCut(e.patience, |old(outstanding)|) && Quiet(e.answers, old(outstanding)) ==>
              lost != {}
      ensures e.PerformCheck? && departed == {} ==>
              NotCut(e.patience, |old(outstanding)|) && Quiet(e.answers, old(outstanding)) ==>
              |outstanding| == |old(outstanding)|
      ensures e.PerformCheck? && e.patience == Some(0) ==> outstanding == []
    {
      v := StillWaiting;
      match e {
        case Arrive(task) =>
          Receive(task);
        case QueueClosed =>
          open := false;
        case Departed(name) =>
          departed := departed + {name};
        case PerformCheck(patience, answers) =>
          Check(cpus, patience, answers);
          if !open && outstanding == [] {
            v := ReturnedNil;
          }
        case Cancelled =>
          v := ReturnedError;
      }
    }
  }

  // ---------------------------------------------------------------------------
  // Checks that are cut short

  /** No check is cut short, even if it is about every task that has arrived. */
  predicate NoneCut(events: seq<Event>) {
    events == [] ||
    (var front, e := events[..|events| - 1], events[|events| - 1];
     NoneCut(front) && (e.PerformCheck? ==> NotCut(e.patience, |Arrivals(front)|)))
  }

  /** No node is done and none departs. */
  predicate Silent(events: seq<Event>) {
    events == [] ||
    (var front, e := events[..|events| - 1], events[|events| - 1];
     Silent(front) && !e.Departed? && (e.PerformCheck? ==> Quiet(e.answers, Arrivals(front))))
  }

  /** Some check is cut short while no node is done and none has departed; what comes
      after it does not matter. */
  predicate CutInSilence(events: seq<Event>) {
    events != [] &&
    var front, e := events[..|events| - 1], events[|events| - 1];
    || CutInSilence(front)
    || (e.PerformCheck? && Silent(events) && !NotCut(e.patience, |Arrivals(front)|))
  }

  /** In silence these are the two possibilities. */
  lemma {:induction false} CutOrNot(events: seq<Event>)
    requires Silent(events)
    ensures NoneCut(events) <==> !CutInSilence(events)
  {
    if events != [] {
      CutOrNot(events[..|events| - 1]);
    }
  }

  // ---------------------------------------------------------------------------
  // What the tasks come to

  function DepartedIn(events: seq<Event>): set<string> {
    if events == [] then {}
    else
      var e := events[|events| - 1];
      DepartedIn(events[..|events| - 1]) + if e.Departed? then {e.name} else {}
  }

  /** What a task comes to among some events: the first check since it arrived in which
      its node is done, or that finds it departed, decides. */
  function FateOf(events: seq<Event>, t: Pending): Fate {
    if events == [] then StillOpen
    else
      var front, e := events[..|events| - 1], events[|events| - 1];
      if FateOf(front, t) == StillOpen && e.PerformCheck? && t in Arrivals(front)
      then CheckFate(e.answers, DepartedIn(front), t)
      else FateOf(front, t)
  }

  lemma {:induction false} FateBeforeArrival(events: seq<Event>, t: Pending)
    requires t !in Arrivals(events)
    ensures FateOf(events, t) == StillOpen
  {
    if events != [] {
      FateBeforeArrival(events[..|events| - 1], t);
    }
  }

  predicate Closed(events: seq<Event>) {
    events != [] && (events[|events| - 1].QueueClosed? || Closed(events[..|events| - 1]))
  }

  /** The last event is a check that finds the queue closed and leaves no task open. */
  predicate IsOver(events: seq<Event>) {
    && events != [] && events[|events| - 1].PerformCheck? && Closed(events)
    && forall t :: t in Arrivals(events) ==> FateOf(events, t) != StillOpen
  }

  /** `Await` on the events it is woken by, in any order and number; `tasks` are the
      ones that arrive. Every task is closed at most once. If no check was cut short each
      task is as the events make it, and it returns nil exactly at the first check that
      finds the queue closed and leaves no task open. If one was, before any node was
      done, and it returns nil, some task is open: so they are sure to be closed then,
      whatever the nodes answer, exactly when no check is cut short. */
  method Await(events: seq<Event>, cpus: nat, ghost tasks: seq<Pending>) returns (v: Verdict, used: nat)
    requires cpus > 0 && tasks == Arrivals(events) && Distinct(tasks) && AllOpen(tasks)
    modifies tasks
    ensures used <= |events|
    ensures v == StillWaiting ==> used == |events|
    ensures v == ReturnedError <==> used > 0 && events[used - 1].Cancelled?
    ensures v == ReturnedNil ==> Closed(events[..used])
    ensures NoneCut(events[..used]) ==>
            forall t :: t in Arrivals(events[..used]) ==> HasFate(t, FateOf(events[..used], t))
    ensures NoneCut(events[..used]) ==> (v == ReturnedNil <==> IsOver(events[..used]))
    ensures v == ReturnedNil && CutInSilence(events[..used]) ==>
            exists t :: t in Arrivals(events[..used]) && t.Open()
  {
    var w := new Watch(tasks);
    used := 0;
    v := StillWaiting;
    while used < |events| && v == StillWaiting
      invariant used <= |events| && Along(w, events[..used], v) && w.all == tasks
      decreases |events| - used
    {
      w.HoldsOnlyTasks();
      v := Advance(w, events, used, cpus);
      used := used + 1;
    }
    Concludes(w, events[..used], v);
  }

  lemma Concludes(w: Watch, events: seq<Event>, v: Verdict)
    requires Along(w, events, v)
    ensures v == ReturnedNil ==> Closed(events)
    ensures v == ReturnedError <==> |events| > 0 && events[|events| - 1].Cancelled?
    ensures NoneCut(events) ==> forall t :: t in Arrivals(events) ==> HasFate(t, FateOf(events, t))
    ensures NoneCut(events) ==> (v == ReturnedNil <==> IsOver(events))
    ensures v == ReturnedNil && CutInSilence(events) ==> exists t :: t in Arrivals(events) && t.Open()
  {
    if v == ReturnedNil {
      w.EndsNil();
    }
    if NoneCut(events) {
      OverIff(w, events, v);
    }
  }

  lemma OverIff(w: Watch, events: seq<Event>, v: Verdict)
    requires Along(w, events, v) && NoneCut(events)
    ensures v == ReturnedNil <==> IsOver(events)
  {
    if w.outstanding != [] {
      var t := w.outstanding[0];
      assert t in w.received && t.Open() && HasFate(t, FateOf(events, t));
    }
  }

  /** Where the loop is after some events. */
  ghost predicate Along(w: Watch, events: seq<Event>, v: Verdict)
    reads w, w.received, w.outstanding, w.coming, w.lost
  {
    && w.Valid()
    && w.received == Arrivals(events)
    && w.departed == DepartedIn(events)
    && (w.open <==> !Closed(events))
    && (v == ReturnedError <==> events != [] && events[|events| - 1].Cancelled?)
    && (v == ReturnedNil <==>
          events != [] && events[|events| - 1].PerformCheck? && !w.open && w.outstanding == [])
    && Losses(w, events)
    && (NoneCut(events) ==> Fated(w, events))
  }

  ghost predicate Fated(w: Watch, events: seq<Event>)
    reads w.received, w
  {
    forall t :: t in w.received ==> HasFate(t, FateOf(events, t))
  }

  /** What has been lost, and what is still there in silence. */
  ghost predicate Losses(w: Watch, events: seq<Event>)
    reads w
  {
    && (NoneCut(events) ==> w.lost == {})
    && (CutInSilence(events) ==> w.lost != {})
    && (Silent(events) ==> w.departed == {})
    && (Silent(events) && NoneCut(events) ==> |w.outstanding| == |Arrivals(events)|)
  }

  lemma QuietAmong(answers: Pending -> Report, some: seq<Pending>, all: seq<Pending>)
    requires Quiet(answers, all) && forall t :: t in some ==> t in all
    ensures Quiet(answers, some)
  {
  }

  /** One more event. */
  ghost predicate Extends(before: seq<Event>, e: Event, after: seq<Event>) {
    after != [] && after[..|after| - 1] == before && after[|after| - 1] == e
    && Arrivals(after) == Arrivals(before) + Arriving(e)
  }

  lemma EventNext(events: seq<Event>, i: nat, coming: seq<Pending>)
    requires i < |events| && Arrivals(events[..i]) + coming == Arrivals(events)
    ensures Extends(events[..i], events[i], events[..i + 1])
    ensures events[i].Arrive? ==> coming != [] && coming[0] == events[i].task
  {
    var before, after := events[..i], events[..i + 1];
    ArrivalsNext(events, i, coming);
    assert after[..i] == before && after[i] == events[i];
  }

  method Advance(w: Watch, events: seq<Event>, i: nat, cpus: nat) returns (v: Verdict)
    requires i < |events| && cpus > 0 && Along(w, events[..i], StillWaiting) && w.all == Arrivals(events)
    modifies w, w.outstanding
    ensures Along(w, events[..i + 1], v)
  {
    EventNext(events, i, w.coming);
    v := Progress(w, events[..i], events[i], events[..i + 1], cpus);
  }

  method Progress(w: Watch, ghost before: seq<Event>, e: Event, ghost after: seq<Event>, cpus: nat)
      returns (v: Verdict)
    requires cpus > 0 && Along(w, before, StillWaiting) && Extends(before, e, after)
    requires e.Arrive? ==> w.coming != [] && w.coming[0] == e.task
    modifies w, w.outstanding
    ensures Along(w, after, v)
  {
    if Silent(before) {
      CutOrNot(before);
    }
    if e.PerformCheck? && Quiet(e.answers, w.received) {
      QuietAmong(e.answers, w.outstanding, w.received);
    }
    if e.Arrive? {
      FateBeforeArrival(before, e.task);
    }
    ghost var held := w.outstanding;
    if NoneCut(before) {
      HeldAreOpen(w, before);
    }
    v := w.Handle(e, cpus);
    assert AllOpen(w.outstanding);
    forall t | NoneCut(after) && t in w.received
      ensures HasFate(t, FateOf(after, t))
    {
      if t in held && e.PerformCheck? {
        assert HasFate(t, CheckFate(e.answers, w.departed, t));
      } else if t in held || t in Arriving(e) {
        assert t in w.outstanding && FateOf(after, t) == StillOpen;
      } else {
        assert old(HasFate(t, FateOf(before, t))) && FateOf(after, t) == FateOf(before, t);
      }
    }
  }

  /** Nothing was decided yet about the tasks still outstanding. */
  lemma HeldAreOpen(w: Watch, events: seq<Event>)
    requires w.Valid() && Fated(w, events)
    ensures forall t :: t in w.outstanding ==> FateOf(events, t) == StillOpen
    ensures forall t :: t in w.received && t !in w.outstanding && w.lost == {} ==> FateOf(events, t) != StillOpen
  {
    assert forall t :: t in w.outstanding ==> t in w.received && t.Open();
  }

  /** A context that ends during the last check, at any point of it, makes the loop return
      nil at the next one at the latest, with some task still open. */
  method ReturnsNilTooEarly(tasks: seq<Pending>, cpus: nat, steps: nat, answers: Pending -> Report)
      returns (v: Verdict)
    requires cpus > 0 && Distinct(tasks) && AllOpen(tasks) && steps < 3 * |tasks| && Quiet(answers, tasks)
    modifies tasks
    ensures v == ReturnedNil && exists t :: t in tasks && t.Open()
  {
    var w := new Watch(tasks);
    ReceiveAll(w, tasks, cpus);
    v := w.Handle(QueueClosed, cpus);
    v := w.Handle(PerformCheck(Some(steps), answers), cpus);
    if v != ReturnedNil {
      w.HoldsOnlyTasks();
      v := w.Handle(PerformCheck(Some(0), answers), cpus);
    }
    w.EndsNil();
  }

  method ReceiveAll(w: Watch, tasks: seq<Pending>, cpus: nat)
    requires w.Valid() && w.open && w.outstanding == [] && w.all == w.coming == tasks && cpus > 0
    modifies w
    ensures w.Valid() && w.open && w.outstanding == tasks
  {
    for i := 0 to |tasks|
      invariant w.Valid() && w.open && w.coming == tasks[i..] && w.outstanding == tasks[..i]
    {
      w.Receive(tasks[i]);
    }
  }
}
