/** The deployment state machine (agent/quorum/deployment.go). */
module DeployMachine {
  import opened Base
  import opened Messages

  /** `deploying` is the compare-and-swap flag, `running` the command of the last
      accepted Begin no Done has followed, `last` the last Done. */
  datatype DeployState = DeployState(
    deploying: bool,
    running: Option<DeployCommand>,
    last: Option<DeployCommand>)

  const FRESH: DeployState := DeployState(false, None, None)

  predicate Accepts(s: DeployState, recovering: bool, m: Message) {
    IsCommand(m, Begin) && !recovering ==> !s.deploying
  }

  /** One `Decode`. A refused message leaves the state as it was. */
  function Step(s: DeployState, recovering: bool, m: Message): DeployState {
    if !m.event.DeployCommandOf? || !Accepts(s, recovering, m) then s
    else match m.event.dc.command
      case Begin => DeployState(s.deploying || !recovering, Some(m.event.dc), s.last)
      case Done => DeployState(false, None, Some(m.event.dc))
      case _ => s.(deploying := false)
  }

  function Steps(s: DeployState, recovering: bool, ms: seq<Message>): DeployState {
    if ms == [] then s
    else Step(Steps(s, recovering, ms[..|ms| - 1]), recovering, ms[|ms| - 1])
  }

  /** The messages of `ms` a node in state `s` accepts, in order. */
  function Accepted(s: DeployState, recovering: bool, ms: seq<Message>): seq<Message> {
    if ms == [] then []
    else
      var front, m := ms[..|ms| - 1], ms[|ms| - 1];
      Accepted(s, recovering, front) +
      (if Accepts(Steps(s, recovering, front), recovering, m) then [m] else [])
  }

  lemma {:induction false} StepsAppend(s: DeployState, recovering: bool, ms: seq<Message>, ns: seq<Message>)
    ensures Steps(s, recovering, ms + ns) == Steps(Steps(s, recovering, ms), recovering, ns)
  {
    if ns == [] {
      assert ms + ns == ms;
    } else {
      StepsAppend(s, recovering, ms, ns[..|ns| - 1]);
      assert (ms + ns)[..|ms + ns| - 1] == ms + ns[..|ns| - 1];
    }
  }

  // ---------------------------------------------------------------------------
  // The state read off the log

  /** The last deploy command of `log`, if any. */
  function LastCommand(log: seq<Message>): Option<DeployCommand> {
    if log == [] then None
    else
      var m := log[|log| - 1];
      if m.event.DeployCommandOf? then Some(m.event.dc) else LastCommand(log[..|log| - 1])
  }

  /** The last Begin of `log` with no Done after it, if any. */
  function OpenBegin(log: seq<Message>): Option<DeployCommand> {
    if log == [] then None
    else
      var m := log[|log| - 1];
      if IsCommand(m, Begin) then Some(m.event.dc)
      else if IsCommand(m, Done) then None
      else OpenBegin(log[..|log| - 1])
  }

  function LastDone(log: seq<Message>): Option<DeployCommand> {
    if log == [] then None
    else
      var m := log[|log| - 1];
      if IsCommand(m, Done) then Some(m.event.dc) else LastDone(log[..|log| - 1])
  }

  /** What the log says with one more message in it. */
  lemma ReadNext(log: seq<Message>, m: Message)
    ensures LastCommand(log + [m]) == if m.event.DeployCommandOf? then Some(m.event.dc) else LastCommand(log)
    ensures OpenBegin(log + [m]) == if IsCommand(m, Begin) then Some(m.event.dc)
                                    else if IsCommand(m, Done) then None else OpenBegin(log)
    ensures LastDone(log + [m]) == if IsCommand(m, Done) then Some(m.event.dc) else LastDone(log)
  {
    assert (log + [m])[..|log|] == log;
  }

  predicate EndsInBegin(log: seq<Message>) {
    LastCommand(log).Some? && LastCommand(log).value.command == Begin
  }

  function StateOf(log: seq<Message>): DeployState {
    DeployState(EndsInBegin(log), OpenBegin(log), LastDone(log))
  }

  /** After any healthy run the state is the one read off the accepted messages. */
  lemma {:induction false} StateIsFoldOfLog(ms: seq<Message>)
    ensures Steps(FRESH, false, ms) == StateOf(Accepted(FRESH, false, ms))
  {
    if ms != [] {
      var front, m := ms[..|ms| - 1], ms[|ms| - 1];
      StateIsFoldOfLog(front);
      var log := Accepted(FRESH, false, front);
      assert (log + [m])[..|log|] == log;
      assert log + [] == log;
    }
  }

  /** Between two accepted Begins of a healthy run there is an accepted command
      that ends the first deploy. */
  lemma {:induction false} BeginsAreSeparated(ms: seq<Message>, i: nat, j: nat)
    requires i < j < |Accepted(FRESH, false, ms)|
    requires IsCommand(Accepted(FRESH, false, ms)[i], Begin)
    requires IsCommand(Accepted(FRESH, false, ms)[j], Begin)
    ensures exists k :: i < k < j && Accepted(FRESH, false, ms)[k].event.DeployCommandOf?
                        && !IsCommand(Accepted(FRESH, false, ms)[k], Begin)
  {
    var front, m := ms[..|ms| - 1], ms[|ms| - 1];
    var log, all := Accepted(FRESH, false, front), Accepted(FRESH, false, ms);
    if j < |log| {
      BeginsAreSeparated(front, i, j);
      var k :| i < k < j && log[k].event.DeployCommandOf? && !IsCommand(log[k], Begin);
      assert all[k] == log[k];
    } else {
      assert all == log + [m] && Accepts(Steps(FRESH, false, front), false, m);
      StateIsFoldOfLog(front);
      var k := LastCommandIndex(log, i);
      assert all[k] == log[k];
    }
  }

  /** The place of the last deploy command, at or after a known one. */
  lemma {:induction false} LastCommandIndex(log: seq<Message>, i: nat) returns (k: nat)
    requires i < |log| && log[i].event.DeployCommandOf?
    ensures i <= k < |log| && log[k].event.DeployCommandOf? && LastCommand(log) == Some(log[k].event.dc)
  {
    var n := |log| - 1;
    if log[n].event.DeployCommandOf? {
      k := n;
    } else {
      k := LastCommandIndex(log[..n], i);
    }
  }

  // ---------------------------------------------------------------------------
  // What a reader of the state may rely on

  /** One message handled while healthy or while recovering. */
  datatype Handled = Handled(recovering: bool, message: Message)

  function Mixed(s: DeployState, hs: seq<Handled>): DeployState {
    if hs == [] then s
    else Step(Mixed(s, hs[..|hs| - 1]), hs[|hs| - 1].recovering, hs[|hs| - 1].message)
  }

  /** The messages accepted, each as it was handled. */
  function AcceptedMixed(s: DeployState, hs: seq<Handled>): seq<Handled> {
    if hs == [] then []
    else
      var front, h := hs[..|hs| - 1], hs[|hs| - 1];
      AcceptedMixed(s, front) + if Accepts(Mixed(s, front), h.recovering, h.message) then [h] else []
  }

  function MessagesOf(hs: seq<Handled>): seq<Message> {
    if hs == [] then [] else MessagesOf(hs[..|hs| - 1]) + [hs[|hs| - 1].message]
  }

  /** The last command that is not a replayed Begin is a live one. */
  predicate EndsInLiveBegin(hs: seq<Handled>) {
    hs != [] &&
    var front, h := hs[..|hs| - 1], hs[|hs| - 1];
    if IsCommand(h.message, Begin) then !h.recovering || EndsInLiveBegin(front)
    else !h.message.event.DeployCommandOf? && EndsInLiveBegin(front)
  }

  function StateOfMixed(hs: seq<Handled>): DeployState {
    DeployState(EndsInLiveBegin(hs), OpenBegin(MessagesOf(hs)), LastDone(MessagesOf(hs)))
  }

  lemma StateOfMixedNext(hs: seq<Handled>, h: Handled)
    requires Accepts(StateOfMixed(hs), h.recovering, h.message)
    ensures StateOfMixed(hs + [h]) == Step(StateOfMixed(hs), h.recovering, h.message)
  {
    assert (hs + [h])[..|hs|] == hs;
    ReadNext(MessagesOf(hs), h.message);
  }

  /** After any mix of replayed and live messages the state is the one read off the
      accepted messages. */
  lemma {:induction false} MixedIsFoldOfLog(hs: seq<Handled>)
    ensures Mixed(FRESH, hs) == StateOfMixed(AcceptedMixed(FRESH, hs))
  {
    if hs != [] {
      var front, h := hs[..|hs| - 1], hs[|hs| - 1];
      MixedIsFoldOfLog(front);
      var accepted := AcceptedMixed(FRESH, front);
      if Accepts(Mixed(FRESH, front), h.recovering, h.message) {
        StateOfMixedNext(accepted, h);
      } else {
        assert accepted + [] == accepted;
      }
    }
  }

  datatype Mode = ModeNone | ModeDeploying

  datatype InfoResponse = InfoResponse(
    mode: Mode,
    deploying: Option<DeployCommand>,
    deployed: Option<DeployCommand>)

  function GetInfo(s: DeployState): InfoResponse {
    InfoResponse(if s.deploying then ModeDeploying else ModeNone, s.running, s.last)
  }

  /** `QuorumLatestDeployment` on a response; `NilDereference` is the crash. */
  datatype Latest =
    | NoDeployments
    | ActiveDeployment(archive: Option<Archive>, options: Option<DeployOptions>)
    | CompletedDeployment(archive: Option<Archive>, options: Option<DeployOptions>)
    | NilDereference

  function QuorumLatest(i: InfoResponse): Latest {
    match i.deployed
    case None => NoDeployments
    case Some(done) =>
      if i.mode == ModeDeploying then
        match i.deploying
        case None => NilDereference
        case Some(dc) => ActiveDeployment(dc.archive, dc.options)
      else CompletedDeployment(done.archive, done.options)
  }

  /** Whatever mix of replayed and live messages led here, a set flag comes with a
      running command. */
  lemma {:induction false} FlagHasCommand(hs: seq<Handled>)
    ensures Mixed(FRESH, hs).deploying ==> Mixed(FRESH, hs).running.Some?
  {
    if hs != [] {
      FlagHasCommand(hs[..|hs| - 1]);
    }
  }

  /** So the reader of a response taken between two messages never crashes, and
      reports an active deployment exactly when the flag is set. */
  lemma LatestNeverCrashes(hs: seq<Handled>)
    ensures var s := Mixed(FRESH, hs);
            && QuorumLatest(GetInfo(s)) != NilDereference
            && (QuorumLatest(GetInfo(s)).ActiveDeployment? <==> s.deploying && s.last.Some?)
  {
    FlagHasCommand(hs);
  }

  /** What the reader of such a response is told: nothing if no deploy ever completed, the
      running deploy if the flag is set, the last one completed if not. */
  lemma LatestMeaning(hs: seq<Handled>)
    ensures var log := MessagesOf(AcceptedMixed(FRESH, hs));
            var latest := QuorumLatest(GetInfo(Mixed(FRESH, hs)));
            match LastDone(log)
            case None => latest == NoDeployments
            case Some(done) =>
              if EndsInLiveBegin(AcceptedMixed(FRESH, hs)) then
                && OpenBegin(log).Some?
                && latest == ActiveDeployment(OpenBegin(log).value.archive, OpenBegin(log).value.options)
              else latest == CompletedDeployment(done.archive, done.options)
  {
    MixedIsFoldOfLog(hs);
    FlagHasCommand(hs);
  }

  /** And what the response itself says. */
  lemma InfoMeaning(hs: seq<Handled>)
    ensures var accepted, i := AcceptedMixed(FRESH, hs), GetInfo(Mixed(FRESH, hs));
            && (i.mode == ModeDeploying <==> EndsInLiveBegin(accepted))
            && i.deploying == OpenBegin(MessagesOf(accepted))
            && i.deployed == LastDone(MessagesOf(accepted))
  {
    MixedIsFoldOfLog(hs);
  }

  /** The instant inside a healthy Begin after the flag is swapped and before the
      command is stored, which a concurrent reader can observe. */
  function MidBegin(s: DeployState): DeployState {
    s.(deploying := true)
  }

  /** A response taken at that instant crashes its reader exactly when the accepted
      messages, replayed or live, have a Done and no Begin after the last of them. */
  lemma MidBeginCrash(hs: seq<Handled>)
    requires !Mixed(FRESH, hs).deploying
    ensures var log := MessagesOf(AcceptedMixed(FRESH, hs));
            QuorumLatest(GetInfo(MidBegin(Mixed(FRESH, hs)))) == NilDereference
            <==> LastDone(log).Some? && OpenBegin(log).None?
  {
    MixedIsFoldOfLog(hs);
  }

  /** After a single Done, live or replayed, it does. */
  lemma MidBeginCrashes(recovering: bool, done: Message)
    requires IsCommand(done, Done)
    ensures var s := Mixed(FRESH, [Handled(recovering, done)]);
            !s.deploying && QuorumLatest(GetInfo(MidBegin(s))) == NilDereference
  {
    assert [Handled(recovering, done)][..0] == [];
    assert Mixed(FRESH, []) == FRESH;
  }

  // ---------------------------------------------------------------------------
  // Replicas

  predicate NoCommands(ms: seq<Message>) {
    forall i :: 0 <= i < |ms| ==> !ms[i].event.DeployCommandOf?
  }

  lemma {:induction false} NoCommandsKeepState(s: DeployState, ms: seq<Message>)
    requires NoCommands(ms)
    ensures Steps(s, false, ms) == s && Accepted(s, false, ms) == ms
  {
    if ms != [] {
      NoCommandsKeepState(s, ms[..|ms| - 1]);
      assert ms == ms[..|ms| - 1] + [ms[|ms| - 1]];
    }
  }

  lemma {:induction false} AcceptedAppend(s: DeployState, recovering: bool, ms: seq<Message>, ns: seq<Message>)
    ensures Accepted(s, recovering, ms + ns) ==
            Accepted(s, recovering, ms) + Accepted(Steps(s, recovering, ms), recovering, ns)
  {
    if ns == [] {
      assert ms + ns == ms;
    } else {
      AcceptedAppend(s, recovering, ms, ns[..|ns| - 1]);
      StepsAppend(s, recovering, ms, ns[..|ns| - 1]);
      assert (ms + ns)[..|ms + ns| - 1] == ms + ns[..|ns| - 1];
    }
  }

  lemma CommandAfterTalk(s: DeployState, talk: seq<Message>, m: Message)
    requires NoCommands(talk)
    ensures Steps(s, false, talk + [m]) == Step(s, false, m)
    ensures Accepted(s, false, talk + [m]) == if Accepts(s, false, m) then talk + [m] else talk
  {
    NoCommandsKeepState(s, talk);
    assert (talk + [m])[..|talk|] == talk;
    assert talk + [] == talk;
  }

  /** The commands a new leader writes to restart a deploy that was running when
      leadership moved: Restart, Cancel, then the Begin again, with any log events
      around them. No replica refuses any of them, whatever its flag says, and all
      replicas then agree on the flag and on the running command. */
  lemma RestartIsNeverRefused(s: DeployState, a: seq<Message>, restart: Message, b: seq<Message>,
                              cancel: Message, c: seq<Message>, begin: Message)
    requires NoCommands(a) && NoCommands(b) && NoCommands(c)
    requires IsCommand(restart, Restart) && IsCommand(cancel, Cancel) && IsCommand(begin, Begin)
    ensures var ms := (a + [restart]) + (b + [cancel]) + (c + [begin]);
            && Accepted(s, false, ms) == ms
            && Steps(s, false, ms) == DeployState(true, Some(begin.event.dc), s.last)
  {
    var s1 := Step(s, false, restart);
    var x, y, z := a + [restart], b + [cancel], c + [begin];
    CommandAfterTalk(s, a, restart);
    CommandAfterTalk(s1, b, cancel);
    CommandAfterTalk(s1, c, begin);
    StepsAppend(s, false, x, y);
    AcceptedAppend(s, false, x, y);
    StepsAppend(s, false, x + y, z);
    AcceptedAppend(s, false, x + y, z);
  }

  // ---------------------------------------------------------------------------
  // Replaying a log

  /** Recovery refuses nothing. */
  lemma {:induction false} RecoveryAcceptsAll(s: DeployState, ms: seq<Message>)
    ensures Accepted(s, true, ms) == ms
  {
    if ms != [] {
      RecoveryAcceptsAll(s, ms[..|ms| - 1]);
      assert ms == ms[..|ms| - 1] + [ms[|ms| - 1]];
    }
  }

  /** Replayed into a fresh machine, a log gives back everything but the flag. */
  lemma {:induction false} ReplayFresh(log: seq<Message>)
    ensures Steps(FRESH, true, log) == DeployState(false, OpenBegin(log), LastDone(log))
  {
    if log != [] {
      ReplayFresh(log[..|log| - 1]);
    }
  }

  /** Replayed into any machine, a log with a Done in it overrides what was there. */
  lemma {:induction false} ReplayAnywhere(s: DeployState, log: seq<Message>)
    requires LastDone(log).Some?
    ensures Steps(s, true, log) == DeployState(false, OpenBegin(log), LastDone(log))
  {
    var front, m := log[..|log| - 1], log[|log| - 1];
    if !IsCommand(m, Done) {
      ReplayAnywhere(s, front);
    }
  }

  // ---------------------------------------------------------------------------
  // Replayed and live messages one after the other

  function HandledAs(recovering: bool, ms: seq<Message>): seq<Handled> {
    if ms == [] then [] else HandledAs(recovering, ms[..|ms| - 1]) + [Handled(recovering, ms[|ms| - 1])]
  }

  lemma HandledNext(s: DeployState, hs: seq<Handled>, recovering: bool, m: Message)
    ensures Mixed(s, hs + [Handled(recovering, m)]) == Step(Mixed(s, hs), recovering, m)
    ensures AcceptedMixed(s, hs + [Handled(recovering, m)]) ==
            AcceptedMixed(s, hs) + if Accepts(Mixed(s, hs), recovering, m) then [Handled(recovering, m)] else []
  {
    assert (hs + [Handled(recovering, m)])[..|hs|] == hs;
  }

  lemma {:induction false} MixedAppend(s: DeployState, hs: seq<Handled>, recovering: bool, ms: seq<Message>)
    ensures Mixed(s, hs + HandledAs(recovering, ms)) == Steps(Mixed(s, hs), recovering, ms)
  {
    if ms == [] {
      assert hs + HandledAs(recovering, ms) == hs;
    } else {
      var front, m := ms[..|ms| - 1], ms[|ms| - 1];
      MixedAppend(s, hs, recovering, front);
      HandledNext(s, hs + HandledAs(recovering, front), recovering, m);
      assert hs + HandledAs(recovering, ms) == (hs + HandledAs(recovering, front)) + [Handled(recovering, m)];
    }
  }

  lemma HandledAsNext(recovering: bool, ms: seq<Message>, m: Message)
    ensures HandledAs(recovering, ms + [m]) == HandledAs(recovering, ms) + [Handled(recovering, m)]
  {
    assert (ms + [m])[..|ms|] == ms;
  }

  lemma {:induction false} AcceptedMixedAppend(s: DeployState, hs: seq<Handled>, recovering: bool, ms: seq<Message>)
    ensures AcceptedMixed(s, hs + HandledAs(recovering, ms)) ==
            AcceptedMixed(s, hs) + HandledAs(recovering, Accepted(Mixed(s, hs), recovering, ms))
  {
    if ms == [] {
      assert hs + HandledAs(recovering, ms) == hs;
    } else {
      var front, m := ms[..|ms| - 1], ms[|ms| - 1];
      var before := hs + HandledAs(recovering, front);
      var accepted := Accepted(Mixed(s, hs), recovering, front);
      AcceptedMixedAppend(s, hs, recovering, front);
      MixedAppend(s, hs, recovering, front);
      HandledNext(s, before, recovering, m);
      assert hs + HandledAs(recovering, ms) == before + [Handled(recovering, m)];
      if Accepts(Mixed(s, before), recovering, m) {
        HandledAsNext(recovering, accepted, m);
        assert Accepted(Mixed(s, hs), recovering, ms) == accepted + [m];
        LastAppended(AcceptedMixed(s, hs), HandledAs(recovering, accepted), Handled(recovering, m));
      } else {
        assert Accepted(Mixed(s, hs), recovering, ms) == accepted + [] == accepted;
      }
    }
  }

  lemma LastAppended(a: seq<Handled>, b: seq<Handled>, h: Handled)
    ensures (a + b) + [h] == a + (b + [h])
  {
  }

  lemma {:induction false} MessagesOfAppend(hs: seq<Handled>, recovering: bool, ms: seq<Message>)
    ensures MessagesOf(hs + HandledAs(recovering, ms)) == MessagesOf(hs) + ms
  {
    var tail := HandledAs(recovering, ms);
    if ms == [] {
      assert hs + tail == hs;
    } else {
      var front, m := ms[..|ms| - 1], ms[|ms| - 1];
      MessagesOfAppend(hs, recovering, front);
      assert (hs + tail)[..|hs + tail| - 1] == hs + HandledAs(recovering, front);
      assert ms == front + [m];
    }
  }

  // ---------------------------------------------------------------------------

  /** The mutable state machine. */
  class Deployment {
    var deploying: bool
    var runningDeploy: Option<DeployCommand>
    var lastSuccessfulDeploy: Option<DeployCommand>

    function State(): DeployState
      reads this
    {
      DeployState(deploying, runningDeploy, lastSuccessfulDeploy)
    }

    constructor ()
      ensures State() == FRESH
    {
      deploying, runningDeploy, lastSuccessfulDeploy := false, None, None;
    }

    /** Returns false for "deploy already in progress". */
    method Decode(recovering: bool, m: Message) returns (ok: bool)
      modifies this
      ensures ok <==> Accepts(old(State()), recovering, m)
      ensures State() == Step(old(State()), recovering, m)
    {
      if !m.event.DeployCommandOf? {
        return true;
      }
      var dc := m.event.dc;
      match dc.command {
        case Begin =>
          if !recovering {
            if deploying {
              return false;
            }
            deploying := true;
          }
          runningDeploy := Some(dc);
        case Done =>
          deploying := false;
          lastSuccessfulDeploy := Some(dc);
          runningDeploy := None;
        case _ =>
          deploying := false;
      }
      ok := true;
    }

    method Info() returns (i: InfoResponse)
      ensures i == GetInfo(State())
    {
      var mode := ModeNone;
      if deploying {
        mode := ModeDeploying;
      }
      i := InfoResponse(mode, runningDeploy, lastSuccessfulDeploy);
    }
  }
}
