/** One replica as a value: the transcoders a message passes through
    (agent/quorum/quorum.go, transcoders.go) and the log behind them (wal.go). */
module Replica {
  import opened Base
  import opened Messages
  import opened DeployMachine
  import opened HistoryRing

  // ---------------------------------------------------------------------------
  // The transcoder pipeline

  /** `PassiveStage` is a transcoder that neither refuses a message nor touches the
      modelled state: logging, observers, leadership transfer. */
  datatype Stage = DeployStage | HistoryStage | PassiveStage

  const PIPELINE: seq<Stage> := [DeployStage, PassiveStage, PassiveStage, HistoryStage, PassiveStage]

  datatype View = View(deploy: DeployState, history: seq<Message>)

  datatype Outcome = Outcome(view: View, ok: bool)

  /** The message goes through the stages in order; the first refusal ends it. */
  function Pass(stages: seq<Stage>, recovering: bool, v: View, m: Message): Outcome {
    if stages == [] then Outcome(v, true)
    else match stages[0]
      case PassiveStage => Pass(stages[1..], recovering, v, m)
      case HistoryStage => Pass(stages[1..], recovering, v.(history := Remember(v.history, m)), m)
      case DeployStage =>
        var v' := v.(deploy := Step(v.deploy, recovering, m));
        if Accepts(v.deploy, recovering, m) then Pass(stages[1..], recovering, v', m) else Outcome(v', false)
  }

  /** Only passive stages come before a stage that can refuse. */
  predicate GuardFirst(stages: seq<Stage>) {
    forall i, j :: 0 <= i < j < |stages| && stages[j].DeployStage? ==> stages[i].PassiveStage?
  }

  /** A refused message leaves no trace. */
  ghost predicate RefusalIsNoOp(stages: seq<Stage>) {
    forall recovering, v, m :: !Pass(stages, recovering, v, m).ok ==> Pass(stages, recovering, v, m).view == v
  }

  lemma {:induction false} NoGuardNoRefusal(stages: seq<Stage>, recovering: bool, v: View, m: Message)
    requires DeployStage !in stages
    ensures Pass(stages, recovering, v, m).ok
  {
    if stages != [] {
      var v' := if stages[0].HistoryStage? then v.(history := Remember(v.history, m)) else v;
      NoGuardNoRefusal(stages[1..], recovering, v', m);
    }
  }

  lemma {:induction false} GuardFirstSuffices(stages: seq<Stage>, recovering: bool, v: View, m: Message)
    requires GuardFirst(stages) && !Pass(stages, recovering, v, m).ok
    ensures Pass(stages, recovering, v, m).view == v
  {
    if stages != [] {
      var rest := stages[1..];
      if stages[0].PassiveStage? {
        GuardFirstSuffices(rest, recovering, v, m);
      } else {
        forall j | 0 <= j < |rest|
          ensures !rest[j].DeployStage?
        {
          assert rest[j] == stages[j + 1];
        }
        if stages[0].HistoryStage? || Accepts(v.deploy, recovering, m) {
          var v' := if stages[0].HistoryStage? then v.(history := Remember(v.history, m))
                    else v.(deploy := Step(v.deploy, recovering, m));
          NoGuardNoRefusal(rest, recovering, v', m);
        }
      }
    }
  }

  const PROBE: Message :=
    Envelope("", DeployCommandEvent, DeployCommandOf(DeployCommand(Begin, "", None, None)), false, false)

  /** With the flag set, a Begin is refused at the first guard it meets; on the way
      it can only have cleared the history. */
  lemma {:induction false} ProbeRefused(stages: seq<Stage>, v: View)
    requires DeployStage in stages && v.deploy.deploying
    ensures var o := Pass(stages, false, v, PROBE);
            !o.ok && o.view.deploy == v.deploy && (o.view.history == v.history || o.view.history == [PROBE])
  {
    if stages[0].PassiveStage? {
      ProbeRefused(stages[1..], v);
    } else if stages[0].HistoryStage? {
      assert Remember(v.history, PROBE) == [PROBE];
      ProbeRefused(stages[1..], v.(history := [PROBE]));
    }
  }

  lemma {:induction false} GuardFirstNeeded(stages: seq<Stage>, i: nat, j: nat) returns (v: View)
    requires i < j < |stages| && stages[j].DeployStage? && !stages[i].PassiveStage?
    ensures var o := Pass(stages, false, v, PROBE);
            !o.ok && o.view != v
    decreases |stages|
  {
    var rest := stages[1..];
    if stages[0].PassiveStage? {
      assert rest[j - 1] == stages[j] && rest[i - 1] == stages[i];
      v := GuardFirstNeeded(rest, i - 1, j - 1);
    } else {
      assert rest[j - 1] == stages[j];
      v := View(FRESH.(deploying := stages[0].HistoryStage?), []);
      assert Remember([], PROBE) == [PROBE];
      var v' := if stages[0].HistoryStage? then v.(history := [PROBE])
                else v.(deploy := Step(v.deploy, false, PROBE));
      ProbeRefused(rest, v');
    }
  }

  /** Refused messages are no-ops exactly when the guard comes before everything
      with state, and only once. */
  lemma RefusalIsNoOpIffGuardFirst(stages: seq<Stage>)
    ensures RefusalIsNoOp(stages) <==> GuardFirst(stages)
  {
    if GuardFirst(stages) {
      forall recovering, v, m | !Pass(stages, recovering, v, m).ok
        ensures Pass(stages, recovering, v, m).view == v
      {
        GuardFirstSuffices(stages, recovering, v, m);
      }
    } else {
      var i, j :| 0 <= i < j < |stages| && stages[j].DeployStage? && !stages[i].PassiveStage?;
      var v := GuardFirstNeeded(stages, i, j);
      assert !Pass(stages, false, v, PROBE).ok;
    }
  }

  /** The pipeline the quorum builds refuses exactly what the deployment refuses and
      otherwise updates the deployment and the history once each. */
  lemma PipelineMeaning(recovering: bool, v: View, m: Message)
    ensures RefusalIsNoOp(PIPELINE)
    ensures var o := Pass(PIPELINE, recovering, v, m);
            && (o.ok <==> Accepts(v.deploy, recovering, m))
            && o.view == (if o.ok then View(Step(v.deploy, recovering, m), Remember(v.history, m)) else v)
  {
    RefusalIsNoOpIffGuardFirst(PIPELINE);
    var v1 := v.(deploy := Step(v.deploy, recovering, m));
    var v2 := v1.(history := Remember(v.history, m));
    assert Pass([], recovering, v2, m) == Outcome(v2, true);
    assert Pass([PassiveStage], recovering, v2, m) == Outcome(v2, true);
    assert PIPELINE[3..] == [HistoryStage, PassiveStage];
    assert PIPELINE[3..][1..] == [PassiveStage];
    assert Pass(PIPELINE[3..], recovering, v1, m) == Outcome(v2, true);
    assert PIPELINE[2..][1..] == PIPELINE[3..];
    assert Pass(PIPELINE[2..], recovering, v1, m) == Outcome(v2, true);
    assert PIPELINE[1..][1..] == PIPELINE[2..];
    assert Pass(PIPELINE[1..], recovering, v1, m) == Outcome(v2, true);
  }

  // ---------------------------------------------------------------------------
  // A replica

  datatype Node = Node(view: View, logs: seq<Message>, snapshots: nat)

  /** `WAL.decode` after unmarshalling. */
  function Absorb(recovering: bool, n: Node, m: Message): Node {
    var o := Pass(PIPELINE, recovering, n.view, m);
    n.(view := o.view, logs := n.logs + if o.ok && Durable(m) then [m] else [])
  }

  function AbsorbAll(recovering: bool, n: Node, ms: seq<Message>): Node {
    if ms == [] then n
    else Absorb(recovering, AbsorbAll(recovering, n, ms[..|ms| - 1]), ms[|ms| - 1])
  }

  /** A refused entry changes nothing at all, in any state. */
  lemma RefusedEntryIsNoOp(recovering: bool, n: Node, m: Message)
    requires !Accepts(n.view.deploy, recovering, m)
    ensures Absorb(recovering, n, m) == n
  {
    PipelineMeaning(recovering, n.view, m);
    assert n.logs + [] == n.logs;
  }

  /** A run of entries, taken apart: the deployment folds over all of them, the
      history and the log over the accepted ones. */
  lemma {:induction false} AbsorbAllMeaning(recovering: bool, n: Node, ms: seq<Message>)
    ensures var accepted := Accepted(n.view.deploy, recovering, ms);
            AbsorbAll(recovering, n, ms) ==
            Node(View(Steps(n.view.deploy, recovering, ms), RememberAll(n.view.history, accepted)),
                 n.logs + Filter(Durable, accepted), n.snapshots)
  {
    if ms == [] {
      assert n.logs + [] == n.logs;
    } else {
      var front, m := ms[..|ms| - 1], ms[|ms| - 1];
      var accepted := Accepted(n.view.deploy, recovering, front);
      AbsorbAllMeaning(recovering, n, front);
      var before := AbsorbAll(recovering, n, front);
      PipelineMeaning(recovering, before.view, m);
      FilterAppend(Durable, accepted, [m]);
      assert Filter(Durable, [m]) == (if Durable(m) then [m] else []) + Filter(Durable, [m][1..]);
      assert (accepted + [m])[..|accepted|] == accepted;
      assert accepted + [] == accepted;
    }
  }

  lemma {:induction false} AbsorbAllAppend(recovering: bool, n: Node, ms: seq<Message>, ns: seq<Message>)
    ensures AbsorbAll(recovering, n, ms + ns) == AbsorbAll(recovering, AbsorbAll(recovering, n, ms), ns)
  {
    if ns == [] {
      assert ms + ns == ms;
    } else {
      AbsorbAllAppend(recovering, n, ms, ns[..|ns| - 1]);
      assert (ms + ns)[..|ms + ns| - 1] == ms + ns[..|ns| - 1];
    }
  }

  /** What a replica logged on the way from `n` to `n'`. */
  function Appended(n: Node, n': Node): seq<Message> {
    if n.logs <= n'.logs then n'.logs[|n.logs|..] else []
  }

  /** Any two replicas, in any states, that apply the same Done agree on the
      deployment from there on and accept the same messages; once they accept a
      Begin that is not hidden they agree on the history too. */
  lemma DoneSynchronises(a: Node, b: Node, done: Message, ms: seq<Message>, begin: Message, ns: seq<Message>)
    requires IsCommand(done, Done)
    ensures var a', b' := AbsorbAll(false, a, [done] + ms), AbsorbAll(false, b, [done] + ms);
            && a'.view.deploy == b'.view.deploy
            && Appended(a, a') == Appended(b, b')
            && (VisibleBegin(begin) && Accepts(a'.view.deploy, false, begin) ==>
                AbsorbAll(false, a', [begin] + ns).view == AbsorbAll(false, b', [begin] + ns).view)
  {
    SameAfterDone(a.view.deploy, b.view.deploy, done, ms);
    AbsorbAllMeaning(false, a, [done] + ms);
    AbsorbAllMeaning(false, b, [done] + ms);
    var a', b' := AbsorbAll(false, a, [done] + ms), AbsorbAll(false, b, [done] + ms);
    if VisibleBegin(begin) && Accepts(a'.view.deploy, false, begin) {
      AbsorbAllMeaning(false, a', [begin] + ns);
      AbsorbAllMeaning(false, b', [begin] + ns);
      AcceptedAppend(a'.view.deploy, false, [begin], ns);
      assert Accepted(a'.view.deploy, false, [begin]) == [begin];
      var tail := Accepted(Steps(a'.view.deploy, false, [begin]), false, ns);
      BeginForgets(a'.view.history, b'.view.history, begin, tail);
    }
  }

  lemma SameAfterDone(a: DeployState, b: DeployState, done: Message, ms: seq<Message>)
    requires IsCommand(done, Done)
    ensures Steps(a, false, [done] + ms) == Steps(b, false, [done] + ms)
    ensures Accepted(a, false, [done] + ms) == Accepted(b, false, [done] + ms)
  {
    StepsAppend(a, false, [done], ms);
    StepsAppend(b, false, [done], ms);
    AcceptedAppend(a, false, [done], ms);
    AcceptedAppend(b, false, [done], ms);
    assert [done][..0] == [];
    assert Steps(a, false, [done]) == Steps(b, false, [done]);
  }

  // ---------------------------------------------------------------------------
  // What a snapshot keeps

  /** Where the last deploy command stands, or 0 without one. */
  function LastDeploy(ms: seq<Message>): (i: nat)
    ensures i <= |ms|
    ensures ms != [] ==> i < |ms|
  {
    if ms == [] then 0
    else if IsDeploy(ms[|ms| - 1]) then |ms| - 1
    else LastDeploy(ms[..|ms| - 1])
  }

  /** What compaction keeps of a log: everything from the last deploy command on. */
  function FromLastDeploy(ms: seq<Message>): seq<Message> {
    ms[LastDeploy(ms)..]
  }

  /** The place is that of a deploy command unless there is none, and none follows. */
  lemma {:induction false} LastDeployMeaning(ms: seq<Message>)
    ensures forall k :: LastDeploy(ms) < k < |ms| ==> !IsDeploy(ms[k])
    ensures LastDeploy(ms) > 0 ==> IsDeploy(ms[LastDeploy(ms)])
  {
    if ms != [] && !IsDeploy(ms[|ms| - 1]) {
      var front := ms[..|ms| - 1];
      LastDeployMeaning(front);
      forall k | LastDeploy(ms) < k < |ms|
        ensures !IsDeploy(ms[k])
      {
        assert k < |front| ==> ms[k] == front[k];
      }
    }
  }

  /** That pins the place down. */
  lemma LastDeployUnique(ms: seq<Message>, i: nat)
    requires i < |ms| && IsDeploy(ms[i]) && forall k :: i < k < |ms| ==> !IsDeploy(ms[k])
    ensures LastDeploy(ms) == i
  {
    LastDeployMeaning(ms);
  }

  /** Starting late, at a deploy command, does not change what is kept. */
  lemma KeepFromLater(ms: seq<Message>, base: nat)
    requires base < |ms| && (base == 0 || IsDeploy(ms[base]))
    ensures base + LastDeploy(ms[base..]) == LastDeploy(ms)
    ensures FromLastDeploy(ms[base..]) == FromLastDeploy(ms)
  {
    var rest := ms[base..];
    var i := LastDeploy(rest);
    LastDeployMeaning(rest);
    if base == 0 {
      assert rest == ms;
    } else {
      assert IsDeploy(rest[i]) by {
        assert rest[0] == ms[base];
      }
      forall k | base + i < k < |ms|
        ensures !IsDeploy(ms[k])
      {
        assert ms[k] == rest[k - base];
      }
      LastDeployUnique(ms, base + i);
    }
  }

  /** Keeping twice keeps the same. */
  lemma KeepIdempotent(ms: seq<Message>)
    ensures FromLastDeploy(FromLastDeploy(ms)) == FromLastDeploy(ms)
  {
    LastDeployMeaning(ms);
    if ms != [] {
      KeepFromLater(ms, LastDeploy(ms));
    }
  }

  lemma {:induction false} LastCommandOfKept(log: seq<Message>)
    ensures LastCommand(FromLastDeploy(log)) == LastCommand(log)
  {
    if log != [] {
      var front := log[..|log| - 1];
      if !IsDeploy(log[|log| - 1]) {
        LastCommandOfKept(front);
        assert FromLastDeploy(log)[..|FromLastDeploy(log)| - 1] == FromLastDeploy(front);
      }
    }
  }

  /** What replaying the kept part says, command by command. */
  lemma {:induction false} ReplayKept(log: seq<Message>)
    ensures var r := Steps(FRESH, true, FromLastDeploy(log));
            r == match LastCommand(log)
                 case None => FRESH
                 case Some(dc) =>
                   if dc.command == Begin then DeployState(false, Some(dc), None)
                   else if dc.command == Done then DeployState(false, None, Some(dc))
                   else FRESH
  {
    if log != [] {
      var front, m := log[..|log| - 1], log[|log| - 1];
      var kept := FromLastDeploy(log);
      if IsDeploy(m) {
        assert kept == [m];
        assert [m][..0] == [];
        assert Steps(FRESH, true, []) == FRESH;
      } else {
        ReplayKept(front);
        assert kept[..|kept| - 1] == FromLastDeploy(front);
      }
    }
  }

  /** Whether something replayed clears the flag: any command but a Begin. */
  predicate Clears(log: seq<Message>) {
    LastCommand(log).Some? && LastCommand(log).value.command != Begin
  }

  /** Replaying the kept part into any state leaves the flag alone unless the last
      command clears it. */
  lemma {:induction false} FlagAfterReplay(s: DeployState, log: seq<Message>)
    ensures Steps(s, true, FromLastDeploy(log)).deploying <==> s.deploying && !Clears(log)
  {
    if log != [] {
      var front, m := log[..|log| - 1], log[|log| - 1];
      var kept := FromLastDeploy(log);
      if IsDeploy(m) {
        assert kept == [m];
        assert [m][..0] == [];
        assert Steps(s, true, []) == s;
      } else {
        FlagAfterReplay(s, front);
        assert kept[..|kept| - 1] == FromLastDeploy(front);
      }
    }
  }

  lemma {:induction false} LastCommandDecides(log: seq<Message>)
    ensures LastCommand(log).None? ==> OpenBegin(log).None? && LastDone(log).None?
    ensures LastCommand(log).Some? && LastCommand(log).value.command == Begin ==> OpenBegin(log) == LastCommand(log)
    ensures LastCommand(log).Some? && LastCommand(log).value.command == Done ==>
            OpenBegin(log).None? && LastDone(log) == LastCommand(log)
  {
    if log != [] {
      LastCommandDecides(log[..|log| - 1]);
    }
  }

  lemma {:induction false} CommandsAreDurable(log: seq<Message>)
    ensures LastCommand(Filter(Durable, log)) == LastCommand(log)
    ensures OpenBegin(Filter(Durable, log)) == OpenBegin(log)
    ensures LastDone(Filter(Durable, log)) == LastDone(log)
  {
    if log != [] {
      var front, m := log[..|log| - 1], log[|log| - 1];
      CommandsAreDurable(front);
      assert log == front + [m];
      FilterAppend(Durable, front, [m]);
      var kept := Filter(Durable, front);
      assert Filter(Durable, [m]) == if Durable(m) then [m] else [];
      ReadNext(front, m);
      ReadNext(kept, m);
      assert kept + [] == kept;
    }
  }

  const EMPTY: Node := Node(View(FRESH, []), [], 0)

  /** Which messages are refused depends on the flag alone. */
  lemma {:induction false} FlagDecides(a: DeployState, b: DeployState, ms: seq<Message>)
    requires a.deploying == b.deploying
    ensures Accepted(a, false, ms) == Accepted(b, false, ms)
    ensures Steps(a, false, ms).deploying == Steps(b, false, ms).deploying
  {
    if ms != [] {
      FlagDecides(a, b, ms[..|ms| - 1]);
    }
  }

  /** Both refuse the same messages of every continuation. */
  ghost predicate RefuseAlike(a: DeployState, b: DeployState) {
    forall ms :: Accepted(a, false, ms) == Accepted(b, false, ms)
  }

  lemma RefuseAlikeIff(a: DeployState, b: DeployState)
    ensures RefuseAlike(a, b) <==> a.deploying == b.deploying
  {
    if a.deploying == b.deploying {
      forall ms
        ensures Accepted(a, false, ms) == Accepted(b, false, ms)
      {
        FlagDecides(a, b, ms);
      }
    } else {
      assert [PROBE][..0] == [];
      assert Accepted(a, false, [PROBE]) == if a.deploying then [] else [PROBE];
      assert Accepted(b, false, [PROBE]) == if b.deploying then [] else [PROBE];
    }
  }
}
