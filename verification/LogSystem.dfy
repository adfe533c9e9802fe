/** Every run of one replica's log: entries applied while a snapshot is scanned,
    written and released, with sinks that may fail and restores at any time
    (agent/quorum/wal.go, as Raft's goroutines call it). */
module LogSystem {
  import opened Base
  import opened Messages
  import opened Framing
  import opened DeployMachine
  import opened HistoryRing
  import opened Replica
  import opened Recovery
  import opened Slots

  /** How far the snapshot in hand has come. `Persist` reads the log twice: once to
      find where to start, once to take what it writes. What it takes is a slice:
      while `shared`, its array is still the one entries are appended to. */
  datatype Progress =
    | Taken
    | Scanned
    | HeaderWritten
    | Writing(todo: seq<Slot>, shared: bool)
    | Ended(ok: bool)

  /** A snapshot between `Snapshot` and `Release`. `log` records the uncompacted log
      as it stood at `Snapshot`, `overtaken` whether a restore came before the
      snapshot had read all it needs, `written` the places written so far; the program
      has no such fields. */
  datatype Ticket = Ticket(
    id: nat,
    min: nat,
    max: nat,
    progress: Progress,
    sink: Bytes,
    log: seq<Message>,
    overtaken: bool,
    written: seq<Slot>)

  datatype File = File(bytes: Bytes, log: seq<Message>, overtaken: bool, written: seq<Slot>)

  /** `room` is the capacity of the log's slice. `full` is the uncompacted log: every
      message accepted and not ephemeral since the start or since the last restore;
      `dropped` counts what compaction removed from its front. The last two are not
      fields of the program. */
  datatype World = World(
    node: Node,
    room: nat,
    open: Option<Ticket>,
    full: seq<Message>,
    dropped: nat,
    files: seq<File>,
    crashed: bool)

  const START: World := World(EMPTY, 0, None, [], 0, [], false)

  /** `grown` is the capacity a full slice grows to, `room` the one a restored log
      ends up with. */
  datatype Action =
    | Entry(message: Message, grown: nat)
    | Idle
    | TakeSnapshot
    | Scan
    | WriteHeader(ok: bool)
    | Collect
    | WriteMessage(ok: bool)
    | CloseSink(ok: bool)
    | Release
    | Restore(data: Bytes, room: nat)

  predicate At(s: World, p: Progress) {
    s.open.Some? && s.open.value.progress == p
  }

  predicate InWriting(s: World) {
    s.open.Some? && s.open.value.progress.Writing?
  }

  predicate HasEnded(s: World) {
    s.open.Some? && s.open.value.progress.Ended?
  }

  /** The snapshot in hand has not taken all it needs from the log. */
  predicate StillReads(s: World) {
    At(s, Taken) || At(s, Scanned) || At(s, HeaderWritten)
  }

  /** A restored log starts with a capacity of 128 and grows only when that is used up. */
  predicate RestoredRoom(length: nat, room: nat) {
    length <= room && (length <= RESTORED ==> room == RESTORED)
  }

  /** What may happen next. Entries and restores come at any time; snapshots go one at
      a time from `Snapshot` through `Persist`, which may be left out, to `Release`. */
  predicate Enabled(w: Wire<Message>, s: World, a: Action) {
    !s.crashed &&
    match a
    case Entry(m, _) => Sized(w, m)
    case Idle => true
    case TakeSnapshot => s.open.None?
    case Scan => At(s, Taken)
    case WriteHeader(_) => At(s, Scanned)
    case Collect => At(s, HeaderWritten)
    case WriteMessage(_) => InWriting(s) && s.open.value.progress.todo != []
    case CloseSink(_) => InWriting(s) && s.open.value.progress.todo == []
    case Release => At(s, Taken) || HasEnded(s)
    case Restore(data, room) =>
      var logs := RestoreNode(w, s.node, data).node.logs;
      AllSized(w, logs) && RestoredRoom(|logs|, room)
  }

  function Progressed(s: World, p: Progress, sink: Bytes): World
    requires s.open.Some?
  {
    s.(open := Some(s.open.value.(progress := p, sink := sink)))
  }

  /** A message appended in place shows in a slice that shares the array; one that
      makes the log grow moves the log to an array of its own. */
  function Shown(t: Ticket, place: nat, m: Message, grows: bool): Ticket {
    if !t.progress.Writing? || !t.progress.shared then t
    else
      var todo := t.progress.todo;
      var i := place - (t.max - |todo|);
      if grows then t.(progress := Writing(todo, false))
      else if 0 <= i < |todo| then t.(progress := Writing(todo[i := Some(m)], true))
      else t
  }

  /** A restore gives the log a new array, and overtakes a snapshot that still reads. */
  function Passed(t: Ticket): Ticket {
    match t.progress
    case Ended(_) => t
    case Writing(todo, _) => t.(progress := Writing(todo, false))
    case _ => t.(overtaken := true)
  }

  /** The next place is written. */
  function Written(w: Wire<Message>, t: Ticket): Ticket
    requires t.progress.Writing? && t.progress.todo != []
  {
    var next := t.progress.todo[0];
    t.(progress := Writing(t.progress.todo[1..], t.progress.shared),
       sink := t.sink + EncodeRaw(SlotWire(w).marshal(next)), written := t.written + [next])
  }

  /** One action. Slicing the log beyond its capacity is the crash. */
  function Do(w: Wire<Message>, s: World, a: Action): World
    requires Enabled(w, s, a)
  {
    var logs := s.node.logs;
    match a
    case Entry(m, grown) =>
      var node := Absorb(false, s.node, m);
      var grows := |node.logs| > s.room;
      s.(node := node,
         full := s.full + Appended(s.node, node),
         room := if grows then |node.logs| + grown else s.room,
         open := if s.open.Some? && Appended(s.node, node) != []
                 then Some(Shown(s.open.value, |logs|, m, grows)) else s.open)
    case Idle => s
    case TakeSnapshot =>
      var id := s.node.snapshots + 1;
      s.(node := s.node.(snapshots := id), open := Some(Ticket(id, 0, |logs|, Taken, [], s.full, false, [])))
    case Scan =>
      var t := s.open.value;
      if t.max > s.room then s.(crashed := true)
      else s.(open := Some(t.(min := LastDeployAt(SlotsOf(logs, t.max)), progress := Scanned)))
    case WriteHeader(ok) =>
      if ok then Progressed(s, HeaderWritten, EncodeRaw(w.preamble)) else Progressed(s, Ended(false), [])
    case Collect =>
      var t := s.open.value;
      if t.min > t.max || t.max > s.room then s.(crashed := true)
      else Progressed(s, Writing(SlotsOf(logs, t.max)[t.min..], true), t.sink)
    case WriteMessage(ok) =>
      var t := s.open.value;
      if ok then s.(open := Some(Written(w, t))) else Progressed(s, Ended(false), t.sink)
    case CloseSink(ok) =>
      var t := s.open.value;
      var s' := Progressed(s, Ended(ok), t.sink);
      if ok then s'.(files := s.files + [File(t.sink, t.log, t.overtaken, t.written)]) else s'
    case Release =>
      var t := s.open.value;
      if t.id != s.node.snapshots then s.(open := None)
      else if t.min > |logs| || t.min > s.room then s.(crashed := true)
      else
        s.(open := None, node := s.node.(logs := logs[t.min..]), room := s.room - t.min, dropped := s.dropped + t.min)
    case Restore(data, room) =>
      var node := RestoreNode(w, s.node, data).node;
      s.(node := node, room := room, full := node.logs, dropped := 0,
         open := if s.open.Some? then Some(Passed(s.open.value)) else None)
  }

  /** Actions that can be taken one after the other from the start. */
  predicate Legal(w: Wire<Message>, actions: seq<Action>)
    decreases |actions|, 0
  {
    actions == [] ||
    (var front := actions[..|actions| - 1];
     Legal(w, front) && Enabled(w, After(w, front), actions[|actions| - 1]))
  }

  function After(w: Wire<Message>, actions: seq<Action>): World
    requires Legal(w, actions)
    decreases |actions|, 1
  {
    if actions == [] then START
    else Do(w, After(w, actions[..|actions| - 1]), actions[|actions| - 1])
  }

  lemma ThenOne(w: Wire<Message>, actions: seq<Action>, a: Action)
    requires Legal(w, actions) && Enabled(w, After(w, actions), a)
    ensures Legal(w, actions + [a]) && After(w, actions + [a]) == Do(w, After(w, actions), a)
  {
    assert (actions + [a])[..|actions|] == actions;
  }

  // ---------------------------------------------------------------------------
  // The invariant

  /** The log in memory is the uncompacted log from a deploy command on. */
  predicate Compacted(s: World) {
    && s.dropped <= |s.full|
    && s.node.logs == s.full[s.dropped..]
    && (s.dropped == 0 || (s.dropped < |s.full| && IsDeploy(s.full[s.dropped])))
    && |s.node.logs| <= s.room
  }

  predicate Persistable(w: Wire<Message>, log: seq<Message>) {
    forall i :: 0 <= i < |log| ==> Sized(w, log[i]) && Durable(log[i])
  }

  /** The messages a ticket is to keep were the last of the log in memory, and they
      start at a deploy command unless they were all of it. */
  predicate Keeps(t: Ticket) {
    var kept := FromLastDeploy(t.log);
    |kept| <= t.max && (|kept| < t.max ==> kept != [] && IsDeploy(kept[0]))
  }

  /** While its snapshot is the latest, a ticket marks a piece of the log that still
      starts where it did. */
  predicate Live(s: World, t: Ticket) {
    && t.log <= s.full
    && s.dropped + t.max == |t.log|
    && (t.max == 0 ==> s.dropped == 0)
    && t.max <= |s.node.logs|
    && t.min == if t.progress.Taken? then 0 else LastDeploy(s.node.logs[..t.max])
  }

  /** A ticket that was released without `Persist`, or never scanned, has its mark at
      the front. What the sink holds is what was written. */
  predicate Spooled(w: Wire<Message>, t: Ticket) {
    match t.progress
    case Taken => t.min == 0 && t.written == []
    case Scanned => t.written == []
    case HeaderWritten => t.written == [] && t.sink == EncodeRaw(w.preamble)
    case Writing(todo, _) =>
      && t.sink == SlotBytes(w, t.written)
      && |todo| <= t.max
      && AllSized(SlotWire(w), t.written) && AllSized(SlotWire(w), todo)
      && (!t.overtaken ==> t.written + todo == Filled(FromLastDeploy(t.log)))
    case Ended(_) => t.sink == SlotBytes(w, t.written) || (t.sink == [] && t.written == [])
  }

  predicate GoodTicket(w: Wire<Message>, s: World, t: Ticket)
    requires Compacted(s)
  {
    && t.id > 0
    && t.min <= t.max
    && Persistable(w, t.log)
    && Keeps(t)
    && Spooled(w, t)
    && if t.id == s.node.snapshots then !t.overtaken && Live(s, t)
       else s.node.snapshots == 0 && (t.overtaken || t.progress.Ended? || (t.progress.Writing? && !t.progress.shared))
  }

  predicate GoodFile(w: Wire<Message>, f: File) {
    && f.bytes == SlotBytes(w, f.written)
    && AllSized(SlotWire(w), f.written)
    && Persistable(w, f.log)
    && (!f.overtaken ==> f.written == Filled(FromLastDeploy(f.log)))
  }

  /** A crash is that of an overtaken snapshot that reads beyond the new array. */
  predicate OnlyOvertakenCrash(s: World) {
    s.crashed ==> StillReads(s) && s.open.value.overtaken && s.open.value.max > s.room
  }

  predicate Invariant(w: Wire<Message>, s: World) {
    && OnlyOvertakenCrash(s)
    && Compacted(s)
    && Persistable(w, s.full)
    && (s.open.Some? ==> GoodTicket(w, s, s.open.value))
    && (forall i :: 0 <= i < |s.files| ==> GoodFile(w, s.files[i]))
  }

  // ---------------------------------------------------------------------------
  // Every action keeps it

  lemma EntryAppends(n: Node, m: Message)
    ensures Absorb(false, n, m).logs == n.logs + Appended(n, Absorb(false, n, m))
    ensures Appended(n, Absorb(false, n, m)) in {[], [m]}
    ensures Appended(n, Absorb(false, n, m)) == [m] ==> Durable(m)
    ensures Absorb(false, n, m).snapshots == n.snapshots
  {
  }

  /** A snapshot that was not overtaken is not touched by later entries. */
  lemma ShownKeeps(w: Wire<Message>, s: World, t: Ticket, m: Message, grows: bool)
    requires Compacted(s) && GoodTicket(w, s, t) && Sized(w, m)
    ensures var t' := Shown(t, |s.node.logs|, m, grows);
            && Spooled(w, t')
            && t' == t.(progress := t'.progress)
            && t'.progress.Writing? == t.progress.Writing?
            && (t.progress.Writing? && !t.progress.shared ==> t' == t)
  {
    if t.progress.Writing? && t.progress.shared && !grows {
      var todo, i := t.progress.todo, |s.node.logs| - (t.max - |t.progress.todo|);
      if 0 <= i < |todo| {
        assert t.overtaken;
        assert AllSized(SlotWire(w), todo[i := Some(m)]) by {
          assert Sized(SlotWire(w), Some(m));
        }
      }
    }
  }

  /** A longer log does not matter to a ticket. */
  lemma LongerKeeps(w: Wire<Message>, s: World, s': World, t: Ticket)
    requires Compacted(s) && Compacted(s') && GoodTicket(w, s, t)
    requires s.full <= s'.full && s.dropped == s'.dropped && s.node.snapshots == s'.node.snapshots
    ensures GoodTicket(w, s', t)
  {
    if t.id == s.node.snapshots {
      assert s'.node.logs[..t.max] == s.node.logs[..t.max];
    }
  }

  lemma ShownIsGood(w: Wire<Message>, s: World, t: Ticket, m: Message, grows: bool)
    requires Compacted(s) && GoodTicket(w, s, t) && Sized(w, m)
    ensures GoodTicket(w, s, Shown(t, |s.node.logs|, m, grows))
  {
    ShownKeeps(w, s, t, m, grows);
  }

  lemma EntryTicketKeeps(w: Wire<Message>, s: World, m: Message, grown: nat)
    requires Invariant(w, s) && Enabled(w, s, Entry(m, grown)) && s.open.Some?
    requires Compacted(Do(w, s, Entry(m, grown)))
    ensures GoodTicket(w, Do(w, s, Entry(m, grown)), Do(w, s, Entry(m, grown)).open.value)
  {
    var s' := Do(w, s, Entry(m, grown));
    EntryAppends(s.node, m);
    ShownIsGood(w, s, s.open.value, m, |s'.node.logs| > s.room);
    LongerKeeps(w, s, s', s'.open.value);
  }

  lemma EntryKeeps(w: Wire<Message>, s: World, m: Message, grown: nat)
    requires Invariant(w, s) && Enabled(w, s, Entry(m, grown))
    ensures Invariant(w, Do(w, s, Entry(m, grown)))
  {
    var s' := Do(w, s, Entry(m, grown));
    EntryAppends(s.node, m);
    assert s'.full[s.dropped..] == s.full[s.dropped..] + Appended(s.node, s'.node);
    if s.open.Some? {
      EntryTicketKeeps(w, s, m, grown);
    }
  }

  lemma TakeKeeps(w: Wire<Message>, s: World)
    requires Invariant(w, s) && Enabled(w, s, TakeSnapshot)
    ensures Invariant(w, Do(w, s, TakeSnapshot))
  {
    if s.full != [] {
      KeepFromLater(s.full, s.dropped);
      LastDeployMeaning(s.node.logs);
    }
  }

  /** The piece of memory a live ticket marks is the end of the log it was taken of. */
  lemma LivePiece(s: World, t: Ticket)
    requires Compacted(s) && Live(s, t)
    ensures s.node.logs[..t.max] == t.log[s.dropped..]
    ensures LastDeploy(s.node.logs[..t.max]) <= t.max
    ensures s.node.logs[LastDeploy(s.node.logs[..t.max])..t.max] == FromLastDeploy(t.log)
  {
    var piece := s.node.logs[..t.max];
    assert piece == t.log[s.dropped..];
    assert s.node.logs[LastDeploy(piece)..t.max] == piece[LastDeploy(piece)..];
    if t.max > 0 {
      KeepFromLater(t.log, s.dropped);
    } else {
      assert t.log == [];
    }
  }

  lemma ScanKeeps(w: Wire<Message>, s: World)
    requires Invariant(w, s) && Enabled(w, s, Scan)
    ensures Invariant(w, Do(w, s, Scan))
  {
    var t := s.open.value;
    if t.id == s.node.snapshots {
      WithinLength(s.node.logs, t.max);
    }
  }

  lemma HeaderKeeps(w: Wire<Message>, s: World, ok: bool)
    requires Invariant(w, s) && Enabled(w, s, WriteHeader(ok))
    ensures Invariant(w, Do(w, s, WriteHeader(ok)))
  {
  }

  lemma SlotsAreSized(w: Wire<Message>, log: seq<Message>, n: nat, from: nat)
    requires from <= n && forall i :: 0 <= i < |log| ==> Sized(w, log[i])
    ensures AllSized(SlotWire(w), SlotsOf(log, n)[from..])
  {
    forall i | 0 <= i < n - from
      ensures Sized(SlotWire(w), SlotsOf(log, n)[from..][i])
    {
      assert from + i < |log| ==> Sized(w, log[from + i]);
    }
  }

  /** What a live ticket takes is what it is to keep. */
  lemma CollectsKept(s: World, t: Ticket)
    requires Compacted(s) && Live(s, t) && t.progress.HeaderWritten?
    ensures t.min <= t.max && SlotsOf(s.node.logs, t.max)[t.min..] == Filled(FromLastDeploy(t.log))
  {
    LivePiece(s, t);
    SlotsOfPiece(s.node.logs, t.min, t.max);
  }

  lemma SlotsOfPiece(log: seq<Message>, min: nat, max: nat)
    requires min <= max <= |log|
    ensures SlotsOf(log, max)[min..] == Filled(log[min..max])
  {
  }

  lemma CollectKeeps(w: Wire<Message>, s: World)
    requires Invariant(w, s) && Enabled(w, s, Collect)
    ensures Invariant(w, Do(w, s, Collect))
  {
    var t := s.open.value;
    if t.max <= s.room {
      SlotsAreSized(w, s.node.logs, t.max, t.min);
      assert SlotBytes(w, []) == EncodeRaw(w.preamble);
      if !t.overtaken {
        CollectsKept(s, t);
        assert [] + Filled(FromLastDeploy(t.log)) == Filled(FromLastDeploy(t.log));
      }
    }
  }

  lemma WrittenBytes(w: Wire<Message>, slots: seq<Slot>, next: Slot)
    ensures SlotBytes(w, slots + [next]) == SlotBytes(w, slots) + EncodeRaw(SlotWire(w).marshal(next))
  {
    EncodeOneMore(w, slots, next);
    Associative(EncodeRaw(w.preamble), EncodeSlots(w, slots), EncodeRaw(SlotWire(w).marshal(next)));
  }

  lemma WrittenKeeps(w: Wire<Message>, t: Ticket)
    requires Spooled(w, t) && t.progress.Writing? && t.progress.todo != []
    ensures Spooled(w, Written(w, t))
  {
    WrittenBytes(w, t.written, t.progress.todo[0]);
    MovesOver(SlotWire(w), t.written, t.progress.todo);
  }

  lemma MovesOver(w: Wire<Slot>, a: seq<Slot>, b: seq<Slot>)
    requires b != [] && AllSized(w, a) && AllSized(w, b)
    ensures (a + [b[0]]) + b[1..] == a + b
    ensures AllSized(w, a + [b[0]]) && AllSized(w, b[1..])
  {
  }

  lemma WriteKeeps(w: Wire<Message>, s: World, ok: bool)
    requires Invariant(w, s) && Enabled(w, s, WriteMessage(ok))
    ensures Invariant(w, Do(w, s, WriteMessage(ok)))
  {
    WrittenKeeps(w, s.open.value);
  }

  lemma CloseKeeps(w: Wire<Message>, s: World, ok: bool)
    requires Invariant(w, s) && Enabled(w, s, CloseSink(ok))
    ensures Invariant(w, Do(w, s, CloseSink(ok)))
  {
    var t := s.open.value;
    assert t.written + [] == t.written;
    assert GoodFile(w, File(t.sink, t.log, t.overtaken, t.written));
  }

  lemma ReleaseKeeps(w: Wire<Message>, s: World)
    requires Invariant(w, s) && Enabled(w, s, Release)
    ensures Invariant(w, Do(w, s, Release))
  {
    if s.open.value.id == s.node.snapshots {
      ReleaseStaysCompacted(s, s.open.value);
    }
  }

  lemma ReleaseStaysCompacted(s: World, t: Ticket)
    requires Compacted(s) && Live(s, t) && t.min <= t.max
    ensures var dropped := s.dropped + t.min;
            && dropped <= |s.full| && s.node.logs[t.min..] == s.full[dropped..]
            && (dropped == 0 || (dropped < |s.full| && IsDeploy(s.full[dropped])))
  {
    assert s.full[s.dropped..][t.min..] == s.full[s.dropped + t.min..];
    if t.min > 0 {
      MinIsDeploy(s.node.logs[..t.max]);
      assert s.full[s.dropped + t.min] == s.node.logs[t.min];
    }
  }

  lemma MinIsDeploy(piece: seq<Message>)
    requires LastDeploy(piece) > 0
    ensures LastDeploy(piece) < |piece| && IsDeploy(piece[LastDeploy(piece)])
  {
    LastDeployMeaning(piece);
  }

  lemma {:induction false} ReplayIsDurable(w: Wire<Message>, n: Node, data: Bytes)
    requires forall m :: m in n.logs ==> Durable(m)
    ensures forall m :: m in Replay(w, n, data).node.logs ==> Durable(m)
    ensures Replay(w, n, data).node.snapshots == n.snapshots
    decreases |data|
  {
    var raw := RawAt(data);
    if raw.Frame? && w.unmarshal(raw.payload).Some? {
      var m := w.unmarshal(raw.payload).value;
      ReplayIsDurable(w, Absorb(true, n, m), raw.rest);
    }
  }

  lemma RestoreKeeps(w: Wire<Message>, s: World, data: Bytes, room: nat)
    requires Invariant(w, s) && Enabled(w, s, Restore(data, room))
    ensures Invariant(w, Do(w, s, Restore(data, room)))
  {
    var raw := RawAt(data);
    if raw.Frame? {
      ReplayIsDurable(w, s.node.(logs := [], snapshots := 0), raw.rest);
    }
    var s' := Do(w, s, Restore(data, room));
    assert s'.full[0..] == s'.full;
    assert Persistable(w, s'.full) by {
      assert forall i :: 0 <= i < |s'.full| ==> s'.full[i] in s'.node.logs;
    }
    if s.open.Some? {
      PassedIsGood(w, s, s', s.open.value);
    }
  }

  lemma PassedIsGood(w: Wire<Message>, s: World, s': World, t: Ticket)
    requires Compacted(s) && Compacted(s') && GoodTicket(w, s, t) && s'.node.snapshots == 0
    ensures GoodTicket(w, s', Passed(t))
  {
  }

  lemma ActionKeeps(w: Wire<Message>, s: World, a: Action)
    requires Invariant(w, s) && Enabled(w, s, a)
    ensures Invariant(w, Do(w, s, a))
  {
    match a {
      case Entry(m, grown) => EntryKeeps(w, s, m, grown);
      case Idle =>
      case TakeSnapshot => TakeKeeps(w, s);
      case Scan => ScanKeeps(w, s);
      case WriteHeader(ok) => HeaderKeeps(w, s, ok);
      case Collect => CollectKeeps(w, s);
      case WriteMessage(ok) => WriteKeeps(w, s, ok);
      case CloseSink(ok) => CloseKeeps(w, s, ok);
      case Release => ReleaseKeeps(w, s);
      case Restore(data, room) => RestoreKeeps(w, s, data, room);
    }
  }

  lemma {:induction false} RunKeeps(w: Wire<Message>, actions: seq<Action>)
    requires Legal(w, actions)
    ensures Invariant(w, After(w, actions))
  {
    if actions != [] {
      RunKeeps(w, actions[..|actions| - 1]);
      ActionKeeps(w, After(w, actions[..|actions| - 1]), actions[|actions| - 1]);
    }
  }

  // ---------------------------------------------------------------------------
  // What every run guarantees

  /** Compaction cannot be seen. In every run, every file whose snapshot no restore
      overtook holds exactly what the uncompacted log held, at the time of its
      `Snapshot`, from the last deploy command on; and the log is sliced beyond its
      capacity only by a snapshot a restore overtook. */
  lemma CompactionIsInvisible(w: Wire<Message>, actions: seq<Action>)
    requires Legal(w, actions)
    ensures OnlyOvertakenCrash(After(w, actions))
    ensures forall f :: f in After(w, actions).files && !f.overtaken ==>
              f.bytes == SnapshotBytes(w, FromLastDeploy(f.log))
  {
    RunKeeps(w, actions);
    forall f | f in After(w, actions).files && !f.overtaken
      ensures f.bytes == SnapshotBytes(w, FromLastDeploy(f.log))
    {
      var i :| 0 <= i < |After(w, actions).files| && After(w, actions).files[i] == f;
      FilledBytes(w, FromLastDeploy(f.log));
    }
  }

  // ---------------------------------------------------------------------------
  // What compaction leaves in memory

  /** The log in memory is what is to be kept of `log`, and what came after it. */
  predicate CompactedTo(s: World, log: seq<Message>) {
    log <= s.full && s.node.logs == FromLastDeploy(log) + s.full[|log|..]
  }

  /** Nothing is different but the log in memory, its capacity and that no snapshot is in hand. */
  predicate OnlyReleased(s: World, s': World) {
    && s' == s.(open := None, node := s.node.(logs := s'.node.logs), room := s'.room, dropped := s'.dropped)
    && s'.room - |s'.node.logs| == s.room - |s.node.logs|
  }

  /** Releasing a snapshot that was scanned and is the latest drops everything before the
      last deploy command of the log it was taken of; releasing any other one drops
      nothing. */
  lemma ReleaseCompacts(w: Wire<Message>, s: World)
    requires Invariant(w, s) && Enabled(w, s, Release)
    ensures var s', t := Do(w, s, Release), s.open.value;
            && OnlyReleased(s, s')
            && if HasEnded(s) && t.id == s.node.snapshots then CompactedTo(s', t.log)
               else s'.node.logs == s.node.logs
  {
    var t := s.open.value;
    assert GoodTicket(w, s, t);
    if t.id == s.node.snapshots {
      DropsPiece(s, t);
    }
  }

  lemma DropsPiece(s: World, t: Ticket)
    requires Compacted(s) && Live(s, t) && t.min <= t.max
    ensures t.progress.Taken? ==> s.node.logs[t.min..] == s.node.logs
    ensures !t.progress.Taken? ==> s.node.logs[t.min..] == FromLastDeploy(t.log) + s.full[|t.log|..]
  {
    if !t.progress.Taken? {
      LivePiece(s, t);
      assert s.node.logs[t.min..] == s.node.logs[t.min..t.max] + s.node.logs[t.max..];
      assert s.node.logs[t.max..] == s.full[|t.log|..];
    }
  }

  predicate NoReleaseOrRestore(actions: seq<Action>) {
    forall i :: 0 <= i < |actions| ==> !actions[i].Release? && !actions[i].Restore?
  }

  lemma StaysCompacted(w: Wire<Message>, s: World, a: Action, log: seq<Message>)
    requires Enabled(w, s, a) && !a.Release? && !a.Restore? && CompactedTo(s, log)
    ensures CompactedTo(Do(w, s, a), log)
  {
    if a.Entry? {
      EntryAppends(s.node, a.message);
      var more := Appended(s.node, Absorb(false, s.node, a.message));
      assert (s.full + more)[|log|..] == s.full[|log|..] + more;
    }
  }

  /** From then until the next release or restore the log in memory is what was to be kept
      and what was appended since the snapshot. */
  lemma {:induction false} MemoryIsCompacted(w: Wire<Message>, actions: seq<Action>, rest: seq<Action>)
    requires Legal(w, actions + [Release] + rest) && Legal(w, actions) && NoReleaseOrRestore(rest)
    requires HasEnded(After(w, actions)) && After(w, actions).open.value.id == After(w, actions).node.snapshots
    ensures CompactedTo(After(w, actions + [Release] + rest), After(w, actions).open.value.log)
  {
    var all := actions + [Release] + rest;
    var front, a := all[..|all| - 1], all[|all| - 1];
    if rest == [] {
      assert front == actions && a == Release;
      RunKeeps(w, actions);
      ReleaseCompacts(w, After(w, actions));
    } else {
      var shorter := rest[..|rest| - 1];
      assert front == actions + [Release] + shorter && a == rest[|rest| - 1];
      MemoryIsCompacted(w, actions, shorter);
      StaysCompacted(w, After(w, front), a, After(w, actions).open.value.log);
    }
  }

  /** A snapshot may also be released without `Persist`, and then nothing is dropped. */
  lemma ReleaseUnwritten(w: Wire<Message>, actions: seq<Action>)
    requires Legal(w, actions) && !After(w, actions).crashed && After(w, actions).open.None?
    ensures var s := After(w, actions);
            && Legal(w, actions + [TakeSnapshot] + [Release])
            && After(w, actions + [TakeSnapshot] + [Release]) == s.(node := s.node.(snapshots := s.node.snapshots + 1))
  {
    TakeThenRelease(w, After(w, actions));
    ThenOne(w, actions, TakeSnapshot);
    ThenOne(w, actions + [TakeSnapshot], Release);
  }

  lemma TakeThenRelease(w: Wire<Message>, s: World)
    requires Enabled(w, s, TakeSnapshot)
    ensures var taken := Do(w, s, TakeSnapshot);
            && Enabled(w, taken, Release)
            && Do(w, taken, Release) == s.(node := s.node.(snapshots := s.node.snapshots + 1))
  {
    assert s.node.logs[0..] == s.node.logs;
  }

  // ---------------------------------------------------------------------------
  // What a snapshot writes while entries are appended

  /** What is still to be written is what the array holds now, entries appended since
      then included. */
  predicate ReadsArray(s: World) {
    s.open.Some? ==> TicketReads(s.node.logs, s.room, s.open.value)
  }

  predicate TicketReads(log: seq<Message>, room: nat, t: Ticket) {
    t.progress.Writing? && t.progress.shared ==>
    var todo := t.progress.todo;
    |todo| <= t.max <= room && todo == SlotsOf(log, t.max)[t.max - |todo|..]
  }

  lemma ShownReads(log: seq<Message>, room: nat, room': nat, t: Ticket, m: Message, grows: bool)
    requires TicketReads(log, room, t) && (!grows ==> room' == room)
    ensures TicketReads(log + [m], room', Shown(t, |log|, m, grows))
  {
    if t.progress.Writing? && t.progress.shared && !grows {
      AppendInPlace(log, m, t.max, |t.progress.todo|);
    }
  }

  lemma AppendInPlace(log: seq<Message>, m: Message, max: nat, n: nat)
    requires n <= max
    ensures var todo, i := SlotsOf(log, max)[max - n..], |log| - (max - n);
            SlotsOf(log + [m], max)[max - n..] == if 0 <= i < n then todo[i := Some(m)] else todo
  {
  }

  lemma ReadsArrayNext(w: Wire<Message>, s: World, a: Action)
    requires Compacted(s) && ReadsArray(s) && Enabled(w, s, a)
    ensures ReadsArray(Do(w, s, a))
  {
    match a {
      case Entry(m, grown) => EntryReadsArray(w, s, m, grown);
      case Collect =>
        assert |SlotsOf(s.node.logs, s.open.value.max)| == s.open.value.max;
      case WriteMessage(true) =>
        if s.open.value.progress.shared {
          OneFewer(s.node.logs, s.open.value.max, |s.open.value.progress.todo|);
        }
      case _ =>
    }
  }

  lemma OneFewer(log: seq<Message>, max: nat, n: nat)
    requires 0 < n <= max
    ensures SlotsOf(log, max)[max - n..][1..] == SlotsOf(log, max)[max - (n - 1)..]
  {
  }

  lemma EntryReadsArray(w: Wire<Message>, s: World, m: Message, grown: nat)
    requires Compacted(s) && ReadsArray(s) && Enabled(w, s, Entry(m, grown))
    ensures ReadsArray(Do(w, s, Entry(m, grown)))
  {
    EntryAppends(s.node, m);
    var s' := Do(w, s, Entry(m, grown));
    if s.open.Some? {
      if Appended(s.node, s'.node) == [m] {
        ShownReads(s.node.logs, s.room, s'.room, s.open.value, m, |s'.node.logs| > s.room);
      } else {
        assert s'.node.logs == s.node.logs && s'.open == s.open;
      }
    }
  }

  lemma {:induction false} SharedIsArray(w: Wire<Message>, actions: seq<Action>)
    requires Legal(w, actions)
    ensures ReadsArray(After(w, actions))
  {
    if actions != [] {
      var front := actions[..|actions| - 1];
      SharedIsArray(w, front);
      RunKeeps(w, front);
      ReadsArrayNext(w, After(w, front), actions[|actions| - 1]);
    }
  }

  /** How often a sink was closed without an error. */
  function Closes(actions: seq<Action>): nat {
    if actions == [] then 0
    else Closes(actions[..|actions| - 1]) + if actions[|actions| - 1] == CloseSink(true) then 1 else 0
  }

  /** Each of these leaves a file, and nothing else does. */
  lemma {:induction false} FilesAreCloses(w: Wire<Message>, actions: seq<Action>)
    requires Legal(w, actions)
    ensures |After(w, actions).files| == Closes(actions)
  {
    if actions != [] {
      var front, a := actions[..|actions| - 1], actions[|actions| - 1];
      FilesAreCloses(w, front);
      OnlyClosesLeaveFiles(w, After(w, front), a);
    }
  }

  lemma OnlyClosesLeaveFiles(w: Wire<Message>, s: World, a: Action)
    requires Enabled(w, s, a)
    ensures |Do(w, s, a).files| == |s.files| + if a == CloseSink(true) then 1 else 0
  {
  }

  lemma NewFileIsOfTicket(w: Wire<Message>, s: World, a: Action, f: File)
    requires Enabled(w, s, a) && f in Do(w, s, a).files && f !in s.files
    ensures s.open.Some? && f.log == s.open.value.log
  {
  }

  lemma TicketKeepsLog(w: Wire<Message>, s: World, a: Action)
    requires Enabled(w, s, a) && a != TakeSnapshot && Do(w, s, a).open.Some?
    ensures s.open.Some? && Do(w, s, a).open.value.log == s.open.value.log
  {
  }

  /** The log a file records is the uncompacted log at one `Snapshot` of the run. */
  lemma {:induction false} FilesAreOfSnapshots(w: Wire<Message>, actions: seq<Action>, f: File) returns (i: nat)
    requires Legal(w, actions) && f in After(w, actions).files
    ensures i < |actions| && actions[i] == TakeSnapshot
    ensures Legal(w, actions[..i]) && f.log == After(w, actions[..i]).full
  {
    var front := actions[..|actions| - 1];
    if f in After(w, front).files {
      i := FilesAreOfSnapshots(w, front, f);
    } else {
      NewFileIsOfTicket(w, After(w, front), actions[|actions| - 1], f);
      i := TicketIsOfSnapshot(w, front);
    }
    assert front[..i] == actions[..i];
  }

  lemma {:induction false} TicketIsOfSnapshot(w: Wire<Message>, actions: seq<Action>) returns (i: nat)
    requires Legal(w, actions) && After(w, actions).open.Some?
    ensures i < |actions| && actions[i] == TakeSnapshot
    ensures Legal(w, actions[..i]) && After(w, actions).open.value.log == After(w, actions[..i]).full
  {
    var front, a := actions[..|actions| - 1], actions[|actions| - 1];
    if a == TakeSnapshot {
      i := |front|;
    } else {
      TicketKeepsLog(w, After(w, front), a);
      i := TicketIsOfSnapshot(w, front);
      assert front[..i] == actions[..i];
    }
  }

  /** The messages a run applies. */
  function Applied(actions: seq<Action>): seq<Message> {
    if actions == [] then []
    else
      var a := actions[|actions| - 1];
      Applied(actions[..|actions| - 1]) + if a.Entry? then [a.message] else []
  }

  predicate NoRestore(actions: seq<Action>) {
    forall i :: 0 <= i < |actions| ==> !actions[i].Restore?
  }

  /** Snapshots touch neither the uncompacted log nor the transcoders. */
  lemma OtherActionsDoNotApply(w: Wire<Message>, s: World, a: Action)
    requires Enabled(w, s, a) && !a.Entry? && !a.Restore?
    ensures Do(w, s, a).full == s.full && Do(w, s, a).node.view == s.node.view
  {
  }

  lemma {:induction false} FollowsReference(w: Wire<Message>, actions: seq<Action>)
    requires Legal(w, actions) && NoRestore(actions)
    ensures var reference := AbsorbAll(false, EMPTY, Applied(actions));
            After(w, actions).full == reference.logs && After(w, actions).node.view == reference.view
  {
    if actions != [] {
      var front, a := actions[..|actions| - 1], actions[|actions| - 1];
      FollowsReference(w, front);
      var ms := Applied(front);
      assert a == actions[|front|];
      if a.Entry? {
        assert (ms + [a.message])[..|ms|] == ms;
        SameAppend(After(w, front).node, AbsorbAll(false, EMPTY, ms), a.message);
      } else {
        OtherActionsDoNotApply(w, After(w, front), a);
        assert ms + [] == ms;
      }
    }
  }

  /** Without restores the uncompacted log is every accepted durable message, and
      the transcoders are where they would be without snapshots. */
  lemma FullIsAcceptedLog(w: Wire<Message>, actions: seq<Action>)
    requires Legal(w, actions) && NoRestore(actions)
    ensures var s, ms := After(w, actions), Applied(actions);
            && s.full == Filter(Durable, Accepted(FRESH, false, ms))
            && s.node.view == View(Steps(FRESH, false, ms), RememberAll([], Accepted(FRESH, false, ms)))
  {
    FollowsReference(w, actions);
    AbsorbAllMeaning(false, EMPTY, Applied(actions));
  }

  lemma SameAppend(n: Node, reference: Node, m: Message)
    requires n.view == reference.view
    ensures Absorb(false, n, m).view == Absorb(false, reference, m).view
    ensures Absorb(false, reference, m).logs == reference.logs + Appended(n, Absorb(false, n, m))
  {
  }

  /** Any file of any run, unless its snapshot was overtaken, restores on any node,
      busy or not: the restore succeeds, the log is what the file was written from, and
      a snapshot of the restored log would write the same file again. */
  lemma WrittenFilesRestore(w: Wire<Message>, actions: seq<Action>, f: File, n: Node)
    requires Lawful(w) && Legal(w, actions) && f in After(w, actions).files && !f.overtaken
    ensures var r := RestoreNode(w, n, f.bytes);
            && r.err == None
            && r.node.logs == FromLastDeploy(f.log)
            && r.node.view.deploy == Steps(n.view.deploy, true, FromLastDeploy(f.log))
            && SnapshotBytes(w, FromLastDeploy(r.node.logs)) == f.bytes
  {
    RunKeeps(w, actions);
    CompactionIsInvisible(w, actions);
    var i :| 0 <= i < |After(w, actions).files| && After(w, actions).files[i] == f;
    assert GoodFile(w, f);
    RestoreSucceeds(w, n, FromLastDeploy(f.log));
    KeepIdempotent(f.log);
  }
}
