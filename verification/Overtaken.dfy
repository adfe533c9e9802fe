/** What becomes of a snapshot when a restore comes before it has read all it needs
    (agent/quorum/wal.go): exactly when it still writes the right file. */
module Overtaken {
  import opened Base
  import opened Messages
  import opened Framing
  import opened DeployMachine
  import opened Replica
  import opened Recovery
  import opened Slots
  import opened LogSystem

  /** Any file of any run, overtaken or not, is the right one exactly when the places
      written match the messages to be kept. */
  lemma FileIsRightIff(w: Wire<Message>, actions: seq<Action>, f: File)
    requires Lawful(w) && Legal(w, actions) && f in After(w, actions).files
    ensures f.bytes == SnapshotBytes(w, FromLastDeploy(f.log)) <==> Matches(w, f.written, FromLastDeploy(f.log))
  {
    RunKeeps(w, actions);
    var i :| 0 <= i < |After(w, actions).files| && After(w, actions).files[i] == f;
    assert GoodFile(w, f);
    RightBytesIff(w, f.written, FromLastDeploy(f.log));
  }

  // ---------------------------------------------------------------------------
  // Where to look

  /** Where the messages to be kept stood in memory when the snapshot was taken. */
  function Place(t: Ticket): nat
    requires Keeps(t)
  {
    t.max - |FromLastDeploy(t.log)|
  }

  /** Scanning finds that place wherever the messages still stand there. */
  lemma ScanFindsPlace(w: Wire<Message>, t: Ticket, slots: seq<Slot>)
    requires Proto(w) && Keeps(t) && |slots| == t.max && Matches(w, slots[Place(t)..], FromLastDeploy(t.log))
    ensures LastDeployAt(slots) == Place(t)
  {
    var kept, p := FromLastDeploy(t.log), Place(t);
    LastDeployMeaning(t.log);
    LastDeployAtMeaning(slots);
    forall k | p < k < |slots|
      ensures slots[k].Some? ==> !IsDeploy(slots[k].value)
    {
      assert Holds(w, slots[p..][k - p], kept[k - p]);
    }
    if p > 0 {
      assert Holds(w, slots[p..][0], kept[0]);
    }
  }

  /** So reading from where a scan of the same places leads, or from there if an
      earlier scan led there, gives the messages exactly when they stand there. */
  lemma ReadFrom(w: Wire<Message>, t: Ticket, slots: seq<Slot>, from: nat)
    requires Proto(w) && Keeps(t) && |slots| == t.max && from <= t.max
    ensures Matches(w, slots[from..], FromLastDeploy(t.log)) <==>
            from == Place(t) && Matches(w, slots[Place(t)..], FromLastDeploy(t.log))
    ensures from == LastDeployAt(slots) ==>
            (Matches(w, slots[from..], FromLastDeploy(t.log)) <==> Matches(w, slots[Place(t)..], FromLastDeploy(t.log)))
  {
    if Matches(w, slots[Place(t)..], FromLastDeploy(t.log)) {
      ScanFindsPlace(w, t, slots);
    }
  }

  // ---------------------------------------------------------------------------
  // Persist to its end

  predicate Undisturbed(actions: seq<Action>) {
    forall i :: 0 <= i < |actions| ==> !actions[i].Entry? && !actions[i].Restore?
  }

  /** Some actions after others, and what they lead to. */
  ghost predicate Onwards(w: Wire<Message>, actions: seq<Action>, rest: seq<Action>, s': World) {
    Undisturbed(rest) && Legal(w, actions + rest) && After(w, actions + rest) == s'
  }

  lemma OnwardsOne(w: Wire<Message>, actions: seq<Action>, a: Action)
    requires Legal(w, actions) && Enabled(w, After(w, actions), a) && !a.Entry? && !a.Restore?
    ensures Onwards(w, actions, [a], Do(w, After(w, actions), a))
  {
    ThenOne(w, actions, a);
  }

  lemma OnwardsMore(w: Wire<Message>, actions: seq<Action>, a: Action, rest: seq<Action>, s': World)
    requires !a.Entry? && !a.Restore? && Onwards(w, actions + [a], rest, s')
    ensures Onwards(w, actions, [a] + rest, s')
  {
    assert (actions + [a]) + rest == actions + ([a] + rest);
  }

  /** The file a ticket leads to if nothing comes in between. */
  predicate Leads(s: World, s': World, written: seq<Slot>) {
    && s.open.Some? && HasEnded(s')
    && s' == s.(open := s'.open, files := s'.files) && !s'.crashed
    && s'.open.value.id == s.open.value.id && s'.open.value.log == s.open.value.log
    && |s'.files| == |s.files| + 1
    && s'.files[|s.files|].log == s.open.value.log
    && s'.files[|s.files|].overtaken == s.open.value.overtaken
    && s'.files[|s.files|].written == written
  }

  lemma CloseLeads(w: Wire<Message>, s: World)
    requires Enabled(w, s, CloseSink(true))
    ensures Leads(s, Do(w, s, CloseSink(true)), s.open.value.written)
  {
  }

  /** Nothing but the ticket's progress changes. */
  predicate OnlyProgress(s: World, s1: World) {
    && s.open.Some? && s1.open.Some? && !s1.crashed
    && s1 == s.(open := s1.open)
    && s1.open.value == s.open.value.(min := s1.open.value.min, progress := s1.open.value.progress,
                                      sink := s1.open.value.sink, written := s1.open.value.written)
  }

  lemma WriteMoves(w: Wire<Message>, s: World)
    requires Enabled(w, s, WriteMessage(true))
    ensures var s1 := Do(w, s, WriteMessage(true));
            var t, t1 := s.open.value, s1.open.value;
            && OnlyProgress(s, s1) && InWriting(s1)
            && t1.progress.todo == t.progress.todo[1..]
            && t1.written + t1.progress.todo == t.written + t.progress.todo
  {
    var t := s.open.value;
    assert (t.written + [t.progress.todo[0]]) + t.progress.todo[1..] == t.written + t.progress.todo;
  }

  lemma {:induction false} WriteOut(w: Wire<Message>, actions: seq<Action>, s: World, n: nat)
      returns (rest: seq<Action>, s': World)
    requires Legal(w, actions) && After(w, actions) == s && !s.crashed && InWriting(s)
    requires n == |s.open.value.progress.todo|
    ensures Onwards(w, actions, rest, s')
    ensures Leads(s, s', s.open.value.written + s.open.value.progress.todo)
    decreases n
  {
    if n == 0 {
      OnwardsOne(w, actions, CloseSink(true));
      CloseLeads(w, s);
      rest, s' := [CloseSink(true)], Do(w, s, CloseSink(true));
      assert s.open.value.written + [] == s.open.value.written;
    } else {
      var a := WriteMessage(true);
      ThenOne(w, actions, a);
      WriteMoves(w, s);
      var tail;
      tail, s' := WriteOut(w, actions + [a], Do(w, s, a), n - 1);
      OnwardsMore(w, actions, a, tail, s');
      rest := [a] + tail;
    }
  }

  /** What `Persist` comes to when the places from one on are what it writes. */
  predicate Comes(s: World, s': World, from: nat) {
    s.open.Some? &&
    var max := s.open.value.max;
    if max > s.room then s'.crashed
    else from <= max && Leads(s, s', SlotsOf(s.node.logs, max)[from..])
  }

  lemma CollectMoves(w: Wire<Message>, s: World)
    requires Enabled(w, s, Collect) && s.open.value.min <= s.open.value.max <= s.room && s.open.value.written == []
    ensures var s1 := Do(w, s, Collect);
            && OnlyProgress(s, s1) && InWriting(s1)
            && s1.open.value.written + s1.open.value.progress.todo ==
               SlotsOf(s.node.logs, s.open.value.max)[s.open.value.min..]
  {
    var todo := SlotsOf(s.node.logs, s.open.value.max)[s.open.value.min..];
    assert [] + todo == todo;
  }

  lemma CollectCrashes(w: Wire<Message>, s: World)
    requires Enabled(w, s, Collect) && s.open.value.max > s.room
    ensures Do(w, s, Collect).crashed
  {
  }

  /** From the header on. */
  lemma FromHeader(w: Wire<Message>, actions: seq<Action>, s: World) returns (rest: seq<Action>, s': World)
    requires Legal(w, actions) && After(w, actions) == s && !s.crashed && At(s, HeaderWritten)
    requires s.open.value.min <= s.open.value.max && s.open.value.written == []
    ensures Onwards(w, actions, rest, s') && Comes(s, s', s.open.value.min)
  {
    if s.open.value.max > s.room {
      OnwardsOne(w, actions, Collect);
      CollectCrashes(w, s);
      rest, s' := [Collect], Do(w, s, Collect);
    } else {
      ThenOne(w, actions, Collect);
      CollectMoves(w, s);
      var s1 := Do(w, s, Collect);
      var tail;
      tail, s' := WriteOut(w, actions + [Collect], s1, |s1.open.value.progress.todo|);
      OnwardsMore(w, actions, Collect, tail, s');
      rest := [Collect] + tail;
    }
  }

  lemma HeaderMoves(w: Wire<Message>, s: World)
    requires Enabled(w, s, WriteHeader(true))
    ensures var s1 := Do(w, s, WriteHeader(true));
            && OnlyProgress(s, s1) && At(s1, HeaderWritten)
            && s1.open.value.min == s.open.value.min && s1.open.value.written == s.open.value.written
  {
  }

  lemma FromScanned(w: Wire<Message>, actions: seq<Action>, s: World) returns (rest: seq<Action>, s': World)
    requires Legal(w, actions) && After(w, actions) == s && !s.crashed && At(s, Scanned)
    requires s.open.value.min <= s.open.value.max && s.open.value.written == []
    ensures Onwards(w, actions, rest, s') && Comes(s, s', s.open.value.min)
  {
    var a := WriteHeader(true);
    ThenOne(w, actions, a);
    HeaderMoves(w, s);
    var tail;
    tail, s' := FromHeader(w, actions + [a], Do(w, s, a));
    OnwardsMore(w, actions, a, tail, s');
    rest := [a] + tail;
  }

  lemma ScanMoves(w: Wire<Message>, s: World)
    requires Enabled(w, s, Scan)
    ensures var s1, t := Do(w, s, Scan), s.open.value;
            if t.max > s.room then s1.crashed
            else
              && OnlyProgress(s, s1) && At(s1, Scanned) && s1.open.value.written == t.written
              && s1.open.value.min == LastDeployAt(SlotsOf(s.node.logs, t.max)) <= t.max
  {
  }

  lemma FromTaken(w: Wire<Message>, actions: seq<Action>, s: World) returns (rest: seq<Action>, s': World)
    requires Legal(w, actions) && After(w, actions) == s && !s.crashed && At(s, Taken)
    requires s.open.value.written == []
    ensures Onwards(w, actions, rest, s')
    ensures Comes(s, s', LastDeployAt(SlotsOf(s.node.logs, s.open.value.max)))
  {
    ScanMoves(w, s);
    if s.open.value.max > s.room {
      OnwardsOne(w, actions, Scan);
      rest, s' := [Scan], Do(w, s, Scan);
    } else {
      ThenOne(w, actions, Scan);
      var tail;
      tail, s' := FromScanned(w, actions + [Scan], Do(w, s, Scan));
      OnwardsMore(w, actions, Scan, tail, s');
      rest := [Scan] + tail;
    }
  }

  /** From where `Persist` writes, once a scan is over or when it is still to come. */
  function WritesFrom(s: World): nat
    requires s.open.Some?
  {
    var t := s.open.value;
    if t.progress.Taken? then LastDeployAt(SlotsOf(s.node.logs, t.max)) else t.min
  }

  /** `Persist` to its end from wherever it is. */
  lemma FinishPersist(w: Wire<Message>, actions: seq<Action>, s: World) returns (rest: seq<Action>, s': World)
    requires Legal(w, actions) && After(w, actions) == s && !s.crashed && StillReads(s)
    ensures Onwards(w, actions, rest, s') && Comes(s, s', WritesFrom(s))
  {
    RunKeeps(w, actions);
    var p := s.open.value.progress;
    if p.Taken? {
      rest, s' := FromTaken(w, actions, s);
    } else if p.Scanned? {
      rest, s' := FromScanned(w, actions, s);
    } else {
      rest, s' := FromHeader(w, actions, s);
    }
  }

  lemma FinishWriting(w: Wire<Message>, actions: seq<Action>, s: World) returns (rest: seq<Action>, s': World)
    requires Legal(w, actions) && After(w, actions) == s && !s.crashed && s.open.Some?
    requires s.open.value.id == s.node.snapshots
    ensures Onwards(w, actions, rest, s') && !s'.crashed && s'.full == s.full && s'.node == s.node && HasEnded(s')
    ensures s'.open.value.id == s.open.value.id && s'.open.value.log == s.open.value.log
  {
    RunKeeps(w, actions);
    if StillReads(s) {
      rest, s' := FinishPersist(w, actions, s);
    } else if InWriting(s) {
      rest, s' := WriteOut(w, actions, s, |s.open.value.progress.todo|);
    } else {
      rest, s' := [], s;
      assert actions + [] == actions;
    }
  }

  /** Every snapshot that no restore came after can be finished, and then the log in memory
      is what was to be kept and what came since. */
  lemma EverySnapshotCompacts(w: Wire<Message>, actions: seq<Action>) returns (rest: seq<Action>)
    requires Legal(w, actions) && !After(w, actions).crashed && After(w, actions).open.Some?
    requires After(w, actions).open.value.id == After(w, actions).node.snapshots
    ensures var s := After(w, actions);
            && Legal(w, actions + rest) && After(w, actions + rest).open.None?
            && After(w, actions + rest).full == s.full
            && CompactedTo(After(w, actions + rest), s.open.value.log)
  {
    var s := After(w, actions);
    var front, s' := FinishWriting(w, actions, s);
    rest := front + [Release];
    assert (actions + front) + [Release] == actions + rest;
    ThenOne(w, actions + front, Release);
    RunKeeps(w, actions + front);
    ReleaseCompacts(w, s');
  }

  /** Entries do not wait for a snapshot, wherever it is, and it can still be finished
      after them. */
  lemma EntriesDoNotWait(w: Wire<Message>, actions: seq<Action>, m: Message, grown: nat) returns (rest: seq<Action>)
    requires Legal(w, actions) && !After(w, actions).crashed && After(w, actions).open.Some? && Sized(w, m)
    requires After(w, actions).open.value.id == After(w, actions).node.snapshots
    ensures var s := After(w, actions);
            && Legal(w, actions + [Entry(m, grown)] + rest)
            && After(w, actions + [Entry(m, grown)] + rest).open.None?
            && After(w, actions + [Entry(m, grown)] + rest).full ==
               s.full + Appended(s.node, Absorb(false, s.node, m))
            && CompactedTo(After(w, actions + [Entry(m, grown)] + rest), s.open.value.log)
  {
    ThenOne(w, actions, Entry(m, grown));
    EntryAppends(After(w, actions).node, m);
    rest := EverySnapshotCompacts(w, actions + [Entry(m, grown)]);
  }

  // ---------------------------------------------------------------------------
  // Everything that can follow

  predicate NoRestores(actions: seq<Action>) {
    forall i :: 0 <= i < |actions| ==> !actions[i].Restore?
  }

  /** What the overtaken snapshot of `s0` reads, as long as entries do not fill places it
      has marked. */
  function Seen(s0: World): seq<Slot>
    requires s0.open.Some?
  {
    SlotsOf(s0.node.logs, s0.open.value.max)
  }

  /** The overtaken ticket of `s0` as it may have come along. */
  predicate CameFrom(s0: World, t: Ticket)
    requires s0.open.Some?
  {
    var t0, from := s0.open.value, WritesFrom(s0);
    && t.overtaken && t.log == t0.log && t.max == t0.max && t.id == t0.id
    && match t.progress
       case Taken => t0.progress.Taken? && t.min == t0.min
       case Scanned => t.min == from
       case HeaderWritten => t.min == from && t.written == []
       case Writing(todo, _) => from <= t.max && t.written + todo == Seen(s0)[from..] && |todo| <= t.max
       case Ended(_) => true
  }

  predicate WroteSeen(s0: World, f: File)
    requires s0.open.Some?
  {
    f.log == s0.open.value.log && WritesFrom(s0) <= s0.open.value.max && f.written == Seen(s0)[WritesFrom(s0)..]
  }

  /** What may have become of `s0`, in which the snapshot in hand has just been overtaken:
      that is still in hand, and reads what it would have read at once; or it is gone.
      Every file since then of an overtaken snapshot is its. */
  predicate Follows(s0: World, s: World)
    requires s0.open.Some?
  {
    && |s0.files| <= |s.files| && s.files[..|s0.files|] == s0.files
    && (forall i :: |s0.files| <= i < |s.files| && s.files[i].overtaken ==> WroteSeen(s0, s.files[i]))
    && (s.open.Some? && s.open.value.overtaken ==>
          && CameFrom(s0, s.open.value)
          && s0.node.logs <= s.node.logs && s0.room <= s.room && s.node.snapshots == 0
          && SlotsOf(s.node.logs, s0.open.value.max) == Seen(s0))
  }

  /** Entries do not fill places the snapshot marked. */
  predicate Harmless(s0: World, a: Action)
    requires s0.open.Some?
  {
    !a.Restore? && (a.Entry? ==> s0.open.value.max <= |s0.node.logs|)
  }

  lemma EntryFollows(w: Wire<Message>, s0: World, s: World, a: Action)
    requires s0.open.Some? && Follows(s0, s) && Enabled(w, s, a) && a.Entry? && Harmless(s0, a)
    ensures Follows(s0, Do(w, s, a))
  {
    var s' := Do(w, s, a);
    EntryAppends(s.node, a.message);
    if s.open.Some? && s.open.value.overtaken {
      var t, t' := s.open.value, s'.open.value;
      assert t' == t || (t.progress.Writing? && t' == t.(progress := Writing(t.progress.todo, t'.progress.shared)));
      assert SlotsOf(s'.node.logs, t.max) == SlotsOf(s.node.logs, t.max);
    }
  }

  lemma ReadFollows(w: Wire<Message>, s0: World, s: World, a: Action)
    requires s0.open.Some? && Follows(s0, s) && Enabled(w, s, a) && (a.Scan? || a.Collect? || a.WriteHeader?)
    requires s.open.value.overtaken ==> s.open.value.written == []
    ensures Follows(s0, Do(w, s, a))
  {
    var t := s.open.value;
    assert [] + Seen(s0)[..] == Seen(s0);
    if t.overtaken && a.Collect? && t.min <= t.max {
      assert [] + Seen(s0)[t.min..] == Seen(s0)[t.min..];
    }
  }

  lemma WriteFollows(w: Wire<Message>, s0: World, s: World, a: Action)
    requires s0.open.Some? && Follows(s0, s) && Enabled(w, s, a) && a.WriteMessage?
    ensures Follows(s0, Do(w, s, a))
  {
    if a.ok {
      WriteMoves(w, s);
    }
  }

  lemma CloseFollows(w: Wire<Message>, s0: World, s: World, a: Action)
    requires s0.open.Some? && Follows(s0, s) && Enabled(w, s, a) && a.CloseSink?
    ensures Follows(s0, Do(w, s, a))
  {
    var t := s.open.value;
    assert t.written + [] == t.written;
  }

  lemma OtherFollows(w: Wire<Message>, s0: World, s: World, a: Action)
    requires s0.open.Some? && Follows(s0, s) && Enabled(w, s, a) && (a.Idle? || a.TakeSnapshot? || a.Release?)
    ensures Follows(s0, Do(w, s, a))
  {
  }

  lemma StepFollows(w: Wire<Message>, s0: World, s: World, a: Action)
    requires s0.open.Some? && Follows(s0, s) && Enabled(w, s, a) && Harmless(s0, a) && Invariant(w, s)
    ensures Follows(s0, Do(w, s, a))
  {
    match a {
      case Entry(_, _) => EntryFollows(w, s0, s, a);
      case Scan => ReadFollows(w, s0, s, a);
      case WriteHeader(_) => ReadFollows(w, s0, s, a);
      case Collect => ReadFollows(w, s0, s, a);
      case WriteMessage(_) => WriteFollows(w, s0, s, a);
      case CloseSink(_) => CloseFollows(w, s0, s, a);
      case _ => OtherFollows(w, s0, s, a);
    }
  }

  predicate AllHarmless(s0: World, rest: seq<Action>)
    requires s0.open.Some?
  {
    forall i :: 0 <= i < |rest| ==> Harmless(s0, rest[i])
  }

  lemma {:induction false} RunFollows(w: Wire<Message>, actions: seq<Action>, rest: seq<Action>)
    requires Legal(w, actions) && Legal(w, actions + rest)
    requires var s0 := After(w, actions);
             s0.open.Some? && Follows(s0, s0) && AllHarmless(s0, rest)
    ensures Follows(After(w, actions), After(w, actions + rest))
  {
    if rest == [] {
      assert actions + rest == actions;
    } else {
      var front, a := rest[..|rest| - 1], rest[|rest| - 1];
      assert (actions + rest)[..|actions + rest| - 1] == actions + front;
      RunFollows(w, actions, front);
      RunKeeps(w, actions + front);
      StepFollows(w, After(w, actions), After(w, actions + front), a);
    }
  }

  // ---------------------------------------------------------------------------
  // The theorem

  /** The messages to be kept stand, in the new array, where they stood in the old one,
      and a scan that is over led there. */
  predicate StillInPlace(w: Wire<Message>, t: Ticket, restored: seq<Message>)
    requires Keeps(t)
  {
    && (t.progress.Taken? || t.min == Place(t))
    && Matches(w, SlotsOf(restored, t.max)[Place(t)..], FromLastDeploy(t.log))
  }

  /** A file of an overtaken snapshot is the right one exactly if the messages still stand
      in place. */
  predicate RightIffInPlace(w: Wire<Message>, t: Ticket, restored: seq<Message>, f: File)
    requires Keeps(t)
  {
    f.log == t.log && (f.bytes == SnapshotBytes(w, FromLastDeploy(t.log)) <==> StillInPlace(w, t, restored))
  }

  lemma OvertakenStart(w: Wire<Message>, actions: seq<Action>, data: Bytes, room: nat)
    requires Legal(w, actions) && StillReads(After(w, actions))
    requires Enabled(w, After(w, actions), Restore(data, room))
    ensures Legal(w, actions + [Restore(data, room)]) && Keeps(After(w, actions).open.value)
    ensures var s, s0 := After(w, actions), After(w, actions + [Restore(data, room)]);
            && s0.open == Some(s.open.value.(overtaken := true)) && !s0.crashed && s0.files == s.files
            && s0.room == room && s0.node.logs == RestoreNode(w, s.node, data).node.logs
            && Follows(s0, s0)
  {
    var s := After(w, actions);
    RunKeeps(w, actions);
    ThenOne(w, actions, Restore(data, room));
    RestoreMoves(w, s, data, room);
    RunKeeps(w, actions + [Restore(data, room)]);
    assert s.files[..|s.files|] == s.files;
  }

  lemma RestoreMoves(w: Wire<Message>, s: World, data: Bytes, room: nat)
    requires Enabled(w, s, Restore(data, room)) && StillReads(s)
    ensures var s0 := Do(w, s, Restore(data, room));
            && s0.open == Some(s.open.value.(overtaken := true)) && !s0.crashed && s0.files == s.files
            && s0.room == room && s0.node.logs == RestoreNode(w, s.node, data).node.logs
  {
  }

  /** A restore comes while a snapshot still reads, at whichever point; then anything else
      but another restore, and entries only if the restored log reaches as far as the
      snapshot marked. A crash means that the snapshot marked more places than the new
      array has; and every file written of a snapshot that was overtaken, at whichever
      later point, is the right one exactly when the restored log has the messages to be
      kept in the very places where the old log had them. */
  lemma OvertakenPersist(w: Wire<Message>, actions: seq<Action>, data: Bytes, room: nat, rest: seq<Action>)
    requires Proto(w) && Legal(w, actions) && StillReads(After(w, actions))
    requires Enabled(w, After(w, actions), Restore(data, room))
    requires Legal(w, actions + [Restore(data, room)] + rest) && NoRestores(rest)
    requires var s := After(w, actions);
             Undisturbed(rest) || s.open.value.max <= |RestoreNode(w, s.node, data).node.logs|
    ensures Keeps(After(w, actions).open.value)
    ensures var s, s' := After(w, actions), After(w, actions + [Restore(data, room)] + rest);
            var t, restored := s.open.value, RestoreNode(w, s.node, data).node.logs;
            && (s'.crashed ==> t.max > room)
            && |s.files| <= |s'.files|
            && forall i :: |s.files| <= i < |s'.files| && s'.files[i].overtaken ==>
                 RightIffInPlace(w, t, restored, s'.files[i])
  {
    var s, onwards := After(w, actions), actions + [Restore(data, room)];
    var t, restored := s.open.value, RestoreNode(w, s.node, data).node.logs;
    OvertakenStart(w, actions, data, room);
    var s0 := After(w, onwards);
    RunFollows(w, onwards, rest);
    RunKeeps(w, onwards + rest);
    var s' := After(w, onwards + rest);
    RunKeeps(w, actions);
    forall i | |s.files| <= i < |s'.files| && s'.files[i].overtaken
      ensures RightIffInPlace(w, t, restored, s'.files[i])
    {
      ReadFrom(w, t, SlotsOf(restored, t.max), WritesFrom(s0));
      FileIsRightIff(w, onwards + rest, s'.files[i]);
    }
  }

  /** And `Persist` can go on to its end: it crashes if the snapshot marked too many
      places and writes a file if not. */
  lemma OvertakenGoesOn(w: Wire<Message>, actions: seq<Action>, data: Bytes, room: nat) returns (rest: seq<Action>)
    requires Legal(w, actions) && StillReads(After(w, actions))
    requires Enabled(w, After(w, actions), Restore(data, room))
    ensures Undisturbed(rest) && Legal(w, actions + [Restore(data, room)] + rest)
    ensures var s, s' := After(w, actions), After(w, actions + [Restore(data, room)] + rest);
            && (s'.crashed <==> s.open.value.max > room)
            && (!s'.crashed ==> |s'.files| == |s.files| + 1 && s'.files[|s.files|].overtaken)
  {
    var onwards := actions + [Restore(data, room)];
    OvertakenStart(w, actions, data, room);
    var s';
    rest, s' := FinishPersist(w, onwards, After(w, onwards));
  }

  // ---------------------------------------------------------------------------
  // Both failures happen

  lemma RestoreNothing(w: Wire<Message>, n: Node)
    requires Lawful(w)
    ensures RestoreNode(w, n, SnapshotBytes(w, [])).node.logs == []
  {
    RestoreSucceeds(w, n, []);
  }

  lemma BeginEntry(w: Wire<Message>, begin: Message)
    requires IsCommand(begin, Begin) && Sized(w, begin)
    ensures Legal(w, [Entry(begin, 0)])
    ensures var s := After(w, [Entry(begin, 0)]);
            s.node.logs == s.full == [begin] && s.open.None? && !s.crashed && s.files == []
  {
    ThenOne(w, [], Entry(begin, 0));
    PipelineMeaning(false, EMPTY.view, begin);
    assert [] + [Entry(begin, 0)] == [Entry(begin, 0)];
    assert Absorb(false, EMPTY, begin).logs == [] + [begin];
  }

  lemma BeginSnapshot(w: Wire<Message>, begin: Message) returns (actions: seq<Action>)
    requires IsCommand(begin, Begin) && Sized(w, begin)
    ensures Legal(w, actions)
    ensures var s := After(w, actions);
            At(s, Taken) && !s.crashed && s.files == [] && s.open.value.log == [begin] && s.open.value.max == 1
  {
    BeginEntry(w, begin);
    ThenOne(w, [Entry(begin, 0)], TakeSnapshot);
    actions := [Entry(begin, 0)] + [TakeSnapshot];
  }

  /** After a Begin a snapshot is taken, and an empty one is restored: the file holds a
      nil message instead of the Begin. */
  lemma WrongFile(w: Wire<Message>, begin: Message) returns (actions: seq<Action>, f: File)
    requires Proto(w) && IsCommand(begin, Begin) && Sized(w, begin)
    ensures Legal(w, actions) && f in After(w, actions).files
    ensures f.bytes != SnapshotBytes(w, FromLastDeploy(f.log))
  {
    var before := BeginSnapshot(w, begin);
    var s, data := After(w, before), SnapshotBytes(w, []);
    assert FromLastDeploy([begin]) == [begin];
    RestoreNothing(w, s.node);
    var rest := OvertakenGoesOn(w, before, data, RESTORED);
    actions := before + [Restore(data, RESTORED)] + rest;
    OvertakenPersist(w, before, data, RESTORED, rest);
    f := After(w, actions).files[0];
    assert !Holds(w, SlotsOf([], 1)[0..][0], begin);
  }

  const TALK: Message := Envelope("", LogEvent, OtherEvent([]), false, false)

  lemma {:induction false} ManyEntries(w: Wire<Message>, n: nat) returns (actions: seq<Action>)
    requires Sized(w, TALK)
    ensures Legal(w, actions) && !After(w, actions).crashed && After(w, actions).open.None?
    ensures |After(w, actions).node.logs| == n
  {
    actions := [];
    if n > 0 {
      var before := ManyEntries(w, n - 1);
      ThenOne(w, before, Entry(TALK, 0));
      PipelineMeaning(false, After(w, before).node.view, TALK);
      actions := before + [Entry(TALK, 0)];
    }
  }

  /** With more than 128 messages in memory the same restore makes `Persist` crash. */
  lemma OvertakenCrash(w: Wire<Message>) returns (actions: seq<Action>)
    requires Proto(w) && Sized(w, TALK)
    ensures Legal(w, actions) && After(w, actions).crashed
  {
    var before := ManyEntries(w, RESTORED + 1);
    ThenOne(w, before, TakeSnapshot);
    before := before + [TakeSnapshot];
    RestoreNothing(w, After(w, before).node);
    var rest := OvertakenGoesOn(w, before, SnapshotBytes(w, []), RESTORED);
    actions := before + [Restore(SnapshotBytes(w, []), RESTORED)] + rest;
  }
}
