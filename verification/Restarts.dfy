/** What a snapshot says about the replica it was taken of, whatever that replica went
    through: entries, snapshots and restores in any order (agent/quorum/wal.go,
    agent/quorum/deployment.go). */
module Restarts {
  import opened Base
  import opened Messages
  import opened Framing
  import opened DeployMachine
  import opened HistoryRing
  import opened Replica
  import opened Recovery
  import opened Slots
  import opened LogSystem

  // ---------------------------------------------------------------------------
  // What a replica handled

  /** The messages a restore replays. */
  function Replayed(w: Wire<Message>, data: Bytes): seq<Message> {
    match RawAt(data)
    case Stop(_) => []
    case Frame(payload, rest) => if w.isPreamble(payload) then DecodeAll(w, rest).messages else []
  }

  lemma RestoreIsReplay(w: Wire<Message>, n: Node, data: Bytes)
    ensures RestoreNode(w, n, data).node == AbsorbAll(true, n.(logs := [], snapshots := 0), Replayed(w, data))
  {
    var raw := RawAt(data);
    if raw.Frame? && w.isPreamble(raw.payload) {
      ReplayIsDecodeThenAbsorb(w, n.(logs := [], snapshots := 0), raw.rest);
    }
  }

  /** Every message a run handles, live or replayed, in order. */
  function History(w: Wire<Message>, actions: seq<Action>): seq<Handled> {
    if actions == [] then []
    else
      History(w, actions[..|actions| - 1]) +
      match actions[|actions| - 1]
      case Entry(m, _) => HandledAs(false, [m])
      case Restore(data, _) => HandledAs(true, Replayed(w, data))
      case _ => []
  }

  /** The ones accepted. */
  function AcceptedIn(w: Wire<Message>, actions: seq<Action>): seq<Handled> {
    AcceptedMixed(FRESH, History(w, actions))
  }

  /** The log is made of the last of the accepted messages. */
  predicate EndsWith(log: seq<Message>, full: seq<Message>, since: nat) {
    since <= |log| && full == Filter(Durable, log[since..])
  }

  lemma EndsWithMore(log: seq<Message>, full: seq<Message>, since: nat, more: seq<Message>)
    requires EndsWith(log, full, since)
    ensures EndsWith(log + more, full + Filter(Durable, more), since)
  {
    assert (log + more)[since..] == log[since..] + more;
    FilterAppend(Durable, log[since..], more);
  }

  predicate Accounted(w: Wire<Message>, actions: seq<Action>, since: nat)
    requires Legal(w, actions)
  {
    && After(w, actions).node.view.deploy == Mixed(FRESH, History(w, actions))
    && EndsWith(MessagesOf(AcceptedIn(w, actions)), After(w, actions).full, since)
  }

  lemma EntryIsOne(n: Node, m: Message)
    ensures Absorb(false, n, m).view.deploy == Steps(n.view.deploy, false, [m])
    ensures Appended(n, Absorb(false, n, m)) == Filter(Durable, Accepted(n.view.deploy, false, [m]))
  {
    PipelineMeaning(false, n.view, m);
    assert [m][..0] == [];
    assert Filter(Durable, [m]) == (if Durable(m) then [m] else []) + Filter(Durable, [m][1..]);
  }

  lemma EntryAccounted(w: Wire<Message>, actions: seq<Action>, m: Message, grown: nat, since: nat)
    requires Legal(w, actions) && Accounted(w, actions, since)
    requires Legal(w, actions + [Entry(m, grown)])
    ensures Accounted(w, actions + [Entry(m, grown)], since)
  {
    var more := actions + [Entry(m, grown)];
    assert more[..|actions|] == actions;
    var s, hs := After(w, actions), History(w, actions);
    EntryIsOne(s.node, m);
    MixedAppend(FRESH, hs, false, [m]);
    AcceptedMixedAppend(FRESH, hs, false, [m]);
    var accepted := Accepted(s.node.view.deploy, false, [m]);
    MessagesOfAppend(AcceptedIn(w, actions), false, accepted);
    EndsWithMore(MessagesOf(AcceptedIn(w, actions)), s.full, since, accepted);
  }

  lemma RestoreIsMany(w: Wire<Message>, n: Node, data: Bytes)
    ensures var ms, node := Replayed(w, data), RestoreNode(w, n, data).node;
            && node.view.deploy == Steps(n.view.deploy, true, ms)
            && node.logs == Filter(Durable, ms)
  {
    var ms := Replayed(w, data);
    RestoreIsReplay(w, n, data);
    AbsorbAllMeaning(true, n.(logs := [], snapshots := 0), ms);
    RecoveryAcceptsAll(n.view.deploy, ms);
    assert [] + Filter(Durable, ms) == Filter(Durable, ms);
  }

  lemma HistoryNext(w: Wire<Message>, actions: seq<Action>, data: Bytes, room: nat)
    ensures History(w, actions + [Restore(data, room)]) == History(w, actions) + HandledAs(true, Replayed(w, data))
  {
    assert (actions + [Restore(data, room)])[..|actions|] == actions;
  }

  /** What the accepted messages are after a restore. */
  lemma RestoreAccepted(w: Wire<Message>, actions: seq<Action>, data: Bytes, room: nat)
    ensures var more, ms := actions + [Restore(data, room)], Replayed(w, data);
            && Mixed(FRESH, History(w, more)) == Steps(Mixed(FRESH, History(w, actions)), true, ms)
            && MessagesOf(AcceptedIn(w, more)) == MessagesOf(AcceptedIn(w, actions)) + ms
  {
    var ms := Replayed(w, data);
    HistoryNext(w, actions, data, room);
    RecoveryAcceptsAll(Mixed(FRESH, History(w, actions)), ms);
    MixedAppend(FRESH, History(w, actions), true, ms);
    AcceptedMixedAppend(FRESH, History(w, actions), true, ms);
    MessagesOfAppend(AcceptedIn(w, actions), true, ms);
  }

  lemma RestoreDoes(w: Wire<Message>, actions: seq<Action>, data: Bytes, room: nat)
    requires Legal(w, actions) && Legal(w, actions + [Restore(data, room)])
    ensures var s', ms := After(w, actions + [Restore(data, room)]), Replayed(w, data);
            && s'.node.view.deploy == Steps(After(w, actions).node.view.deploy, true, ms)
            && s'.full == Filter(Durable, ms)
  {
    assert (actions + [Restore(data, room)])[..|actions|] == actions;
    RestoreIsMany(w, After(w, actions).node, data);
  }

  lemma EndsInReplayed(log: seq<Message>, ms: seq<Message>)
    ensures EndsWith(log + ms, Filter(Durable, ms), |log|)
  {
    assert (log + ms)[|log|..] == ms;
  }

  lemma RestoreAccounted(w: Wire<Message>, actions: seq<Action>, data: Bytes, room: nat, since: nat)
    requires Legal(w, actions) && Accounted(w, actions, since)
    requires Legal(w, actions + [Restore(data, room)])
    ensures Accounted(w, actions + [Restore(data, room)], |MessagesOf(AcceptedIn(w, actions))|)
  {
    RestoreDoes(w, actions, data, room);
    RestoreAccepted(w, actions, data, room);
    EndsInReplayed(MessagesOf(AcceptedIn(w, actions)), Replayed(w, data));
  }

  lemma OtherAccounted(w: Wire<Message>, actions: seq<Action>, a: Action, since: nat)
    requires Legal(w, actions) && Accounted(w, actions, since) && !a.Entry? && !a.Restore?
    requires Legal(w, actions + [a])
    ensures Accounted(w, actions + [a], since)
  {
    assert (actions + [a])[..|actions|] == actions;
    OtherActionsDoNotApply(w, After(w, actions), a);
    assert History(w, actions) + [] == History(w, actions);
  }

  /** In every run the deployment is what the messages handled make of it, and the
      uncompacted log is the durable ones of those accepted since the last restore
      began. */
  lemma {:induction false} RunIsAccounted(w: Wire<Message>, actions: seq<Action>) returns (since: nat)
    requires Legal(w, actions)
    ensures Accounted(w, actions, since)
  {
    if actions == [] {
      since := 0;
    } else {
      var front, a := actions[..|actions| - 1], actions[|actions| - 1];
      since := RunIsAccounted(w, front);
      assert actions == front + [a];
      match a {
        case Entry(m, grown) =>
          EntryAccounted(w, front, m, grown, since);
        case Restore(data, room) =>
          RestoreAccounted(w, front, data, room, since);
          since := |MessagesOf(AcceptedIn(w, front))|;
        case _ =>
          OtherAccounted(w, front, a, since);
      }
    }
  }

  // ---------------------------------------------------------------------------
  // What the log still says

  lemma {:induction false} LastCommandOfEnd(log: seq<Message>, since: nat)
    requires since <= |log| && LastCommand(log[since..]).Some?
    ensures LastCommand(log) == LastCommand(log[since..])
  {
    var n := |log| - 1;
    if !log[n].event.DeployCommandOf? {
      assert log[..n][since..] == log[since..][..n - since];
      LastCommandOfEnd(log[..n], since);
    }
  }

  /** The last command in memory, if there is one, is the last the replica accepted. */
  lemma LastInMemory(w: Wire<Message>, actions: seq<Action>)
    requires Legal(w, actions)
    ensures var c := LastCommand(After(w, actions).node.logs);
            c.Some? ==> c == LastCommand(MessagesOf(AcceptedIn(w, actions)))
  {
    RunKeeps(w, actions);
    var s, log := After(w, actions), MessagesOf(AcceptedIn(w, actions));
    var since := RunIsAccounted(w, actions);
    CommandsAreDurable(log[since..]);
    if s.full != [] {
      KeepFromLater(s.full, s.dropped);
      LastCommandOfKept(s.full);
      LastCommandOfKept(s.node.logs);
    }
    if LastCommand(s.full).Some? {
      LastCommandOfEnd(log, since);
    }
  }

  // ---------------------------------------------------------------------------
  // What a snapshot keeps

  /** What a snapshot of a replica says about its deployment when it is restored into a
      fresh one, field by field and exactly, whatever the replica went through:
      the flag survives unless the last command other than a replayed Begin is a live
      Begin;
      the running command survives if it is the last command in memory, or if there is
      none;
      the last successful deploy survives if it is the last command in memory, or if
      there never was one. */
  lemma SnapshotKeeps(w: Wire<Message>, actions: seq<Action>)
    requires Legal(w, actions)
    ensures var n := After(w, actions).node;
            var live, restored := n.view.deploy, Steps(FRESH, true, FromLastDeploy(n.logs));
            var accepted, c := AcceptedIn(w, actions), LastCommand(n.logs);
            && (restored.deploying == live.deploying <==> !EndsInLiveBegin(accepted))
            && (restored.running == live.running <==> EndsInBegin(n.logs) || OpenBegin(MessagesOf(accepted)).None?)
            && (restored.last == live.last <==>
                (c.Some? && c.value.command == Done) || LastDone(MessagesOf(accepted)).None?)
  {
    var since := RunIsAccounted(w, actions);
    MixedIsFoldOfLog(History(w, actions));
    LastInMemory(w, actions);
    ReplayKept(After(w, actions).node.logs);
    LastCommandDecides(MessagesOf(AcceptedIn(w, actions)));
  }

  /** A replica restored from a snapshot, whatever state it was in, and the one the
      snapshot was taken of refuse the same messages of every continuation exactly when
      the live one's flag is set just if the other's was and nothing replayed clears
      it. */
  lemma RestoredAgreesIff(w: Wire<Message>, actions: seq<Action>, other: DeployState)
    requires Legal(w, actions)
    ensures var n := After(w, actions).node;
            RefuseAlike(n.view.deploy, Steps(other, true, FromLastDeploy(n.logs))) <==>
            (EndsInLiveBegin(AcceptedIn(w, actions)) <==> other.deploying && !Clears(n.logs))
  {
    var n := After(w, actions).node;
    var since := RunIsAccounted(w, actions);
    MixedIsFoldOfLog(History(w, actions));
    FlagAfterReplay(other, n.logs);
    RefuseAlikeIff(n.view.deploy, Steps(other, true, FromLastDeploy(n.logs)));
  }

  // ---------------------------------------------------------------------------
  // They do disagree

  lemma OneBegin(begin: Message)
    requires IsCommand(begin, Begin)
    ensures HandledAs(false, [begin]) == [Handled(false, begin)]
    ensures AcceptedMixed(FRESH, [Handled(false, begin)]) == [Handled(false, begin)]
    ensures EndsInLiveBegin([Handled(false, begin)])
  {
    var hs := [Handled(false, begin)];
    assert hs[..0] == [] && [begin][..0] == [];
    assert Mixed(FRESH, []) == FRESH && AcceptedMixed(FRESH, []) == [];
  }

  lemma OneEntry(w: Wire<Message>, begin: Message)
    requires IsCommand(begin, Begin) && Sized(w, begin)
    ensures Legal(w, [Entry(begin, 0)]) && !After(w, [Entry(begin, 0)]).crashed
    ensures EndsInLiveBegin(AcceptedIn(w, [Entry(begin, 0)]))
  {
    var actions := [Entry(begin, 0)];
    assert actions[..0] == [];
    OneBegin(begin);
    assert History(w, actions) == [] + HandledAs(false, [begin]);
  }

  /** After one Begin a fresh replica restored from the snapshot disagrees. */
  lemma RestoredDisagrees(w: Wire<Message>, begin: Message)
    requires IsCommand(begin, Begin) && Sized(w, begin)
    ensures Legal(w, [Entry(begin, 0)])
    ensures var n := After(w, [Entry(begin, 0)]).node;
            !RefuseAlike(n.view.deploy, Steps(FRESH, true, FromLastDeploy(n.logs)))
  {
    OneEntry(w, begin);
    RestoredAgreesIff(w, [Entry(begin, 0)], FRESH);
  }

  /** It also does when the live one has since restored an empty snapshot, which leaves
      nothing in its log and its flag set. */
  lemma RestoredDisagreesAgain(w: Wire<Message>, begin: Message)
    requires Lawful(w) && IsCommand(begin, Begin) && Sized(w, begin)
    ensures var actions := [Entry(begin, 0), Restore(SnapshotBytes(w, []), RESTORED)];
            && Legal(w, actions)
            && var n := After(w, actions).node;
               n.logs == [] && !RefuseAlike(n.view.deploy, Steps(FRESH, true, FromLastDeploy(n.logs)))
  {
    var data := SnapshotBytes(w, []);
    var one, a := [Entry(begin, 0)], Restore(data, RESTORED);
    var actions := [Entry(begin, 0), a];
    OneEntry(w, begin);
    assert actions[..1] == one;
    RestoreSucceeds(w, After(w, one).node, []);
    assert Replayed(w, data) == [] by {
      RawOfFrame(w.preamble, EncodeAll(w, []));
      DecodeRoundTrip(w, []);
    }
    assert History(w, actions) == History(w, one) + [] == History(w, one);
    RestoredAgreesIff(w, actions, FRESH);
  }
}
