/** The write-ahead log itself, updated in place (agent/quorum/wal.go,
    agent/quorum/transcoders.go), against the functions of `Replica` and `Recovery`. */
module WriteAheadLog {
  import opened Base
  import opened Messages
  import opened Framing
  import opened DeployMachine
  import opened HistoryRing
  import opened Replica
  import opened Recovery
  import opened Slots
  import LogSystem

  datatype RaftLog = Command(data: Bytes) | Barrier | Noop

  /** As much of some bytes as there is room for. */
  function UpTo(data: Bytes, room: nat): Bytes {
    if |data| <= room then data else data[..room]
  }

  /** A snapshot sink with room for so many bytes, which may also fail to close. */
  class Sink {
    const room: nat
    const closes: bool
    var written: Bytes
    var closed: bool
    var cancelled: bool

    constructor (room: nat, closes: bool)
      ensures this.room == room && this.closes == closes
      ensures written == [] && !closed && !cancelled && Valid()
    {
      this.room, this.closes := room, closes;
      written, closed, cancelled := [], false, false;
    }

    predicate Valid()
      reads this
    {
      |written| <= room
    }

    /** Writes what there is room for. */
    method Write(p: Bytes) returns (ok: bool)
      requires Valid()
      modifies this`written
      ensures Valid()
      ensures ok <==> |old(written)| + |p| <= room
      ensures written == UpTo(old(written) + p, room)
    {
      ok := |written| + |p| <= room;
      written := UpTo(written + p, room);
    }

    method Close() returns (ok: bool)
      modifies this`closed
      ensures ok == closes && closed == ok
    {
      ok, closed := closes, closes;
    }

    method Cancel()
      modifies this`cancelled
      ensures cancelled
    {
      cancelled := true;
    }
  }

  /** `encodeTo`: one write per message, stopping at the first that fails. The sink is
      left with as much of the encoding as it has room for, and it is a success exactly
      if that is all. */
  method EncodeTo(w: Wire<Message>, dst: Sink, messages: seq<Slot>) returns (ok: bool)
    requires dst.Valid()
    modifies dst`written
    ensures dst.Valid()
    ensures dst.written == UpTo(old(dst.written) + EncodeSlots(w, messages), dst.room)
    ensures ok <==> |old(dst.written)| + |EncodeSlots(w, messages)| <= dst.room
  {
    ghost var before, done := dst.written, [];
    assert messages[..0] == [];
    for i := 0 to |messages|
      invariant dst.Valid() && dst.written == before + done && done == EncodeSlots(w, messages[..i])
    {
      var frame := EncodeRaw(SlotWire(w).marshal(messages[i]));
      assert messages[..i + 1] == messages[..i] + [messages[i]];
      EncodeOneMore(w, messages[..i], messages[i]);
      Associative(before, done, frame);
      ok := dst.Write(frame);
      done := done + frame;
      if !ok {
        CutShort(w, messages, i, before, dst.room);
        return;
      }
    }
    assert messages[..|messages|] == messages;
    ok := true;
  }

  /** What does not fit in the first messages does not fit in all of them. */
  lemma CutShort(w: Wire<Message>, messages: seq<Slot>, i: nat, before: Bytes, room: nat)
    requires i < |messages| && |before| + |EncodeSlots(w, messages[..i + 1])| > room
    ensures |before| + |EncodeSlots(w, messages)| > room
    ensures UpTo(before + EncodeSlots(w, messages), room) == UpTo(before + EncodeSlots(w, messages[..i + 1]), room)
  {
    var a, b := messages[..i + 1], messages[i + 1..];
    assert messages == a + b;
    EncodeAllAppend(SlotWire(w), a, b);
  }

  class Wal {
    const wire: Wire<Message>
    const deployment: Deployment
    const history: History
    var recovering: bool
    var snapshots: nat
    var logs: seq<Message>
    var room: nat  // the capacity of the slice `logs` is

    ghost predicate Valid()
      reads this, history, history.buffer, history.buffer.slots
    {
      history.Valid() && |logs| <= room
    }

    ghost function TheView(): View
      reads this, deployment, history, history.buffer
    {
      View(deployment.State(), history.Contents())
    }

    ghost function TheNode(): Node
      reads this, deployment, history, history.buffer
    {
      Node(TheView(), logs, snapshots)
    }

    constructor (wire: Wire<Message>)
      ensures Valid() && !recovering && TheNode() == EMPTY
      ensures fresh(deployment) && fresh(history) && fresh(history.buffer) && fresh(history.buffer.slots)
    {
      this.wire := wire;
      deployment := new Deployment();
      history := new History();
      recovering, snapshots, logs, room := false, 0, [], 0;
    }

    /** The log is where a world of the step system has it. */
    ghost predicate Shows(s: LogSystem.World)
      reads this, deployment, history, history.buffer
    {
      s.node == TheNode() && s.room == room && !s.crashed
    }

    /** `Transcoder.Decode`: the first refusal ends the pass. */
    method Transcode(stages: seq<Stage>, m: Message) returns (ok: bool)
      requires Valid()
      modifies deployment, history.buffer, history.buffer.slots
      ensures Valid()
      ensures Outcome(TheView(), ok) == Pass(stages, recovering, old(TheView()), m)
      ensures history.buffer.slots == old(history.buffer.slots) || fresh(history.buffer.slots)
    {
      assert stages[0..] == stages;
      for i := 0 to |stages|
        invariant Valid()
        invariant history.buffer.slots == old(history.buffer.slots) || fresh(history.buffer.slots)
        invariant Pass(stages, recovering, old(TheView()), m) == Pass(stages[i..], recovering, TheView(), m)
      {
        assert stages[i..][1..] == stages[i + 1..];
        match stages[i] {
          case DeployStage =>
            ok := deployment.Decode(recovering, m);
            if !ok {
              return;
            }
          case HistoryStage =>
            history.Decode(m);
          case PassiveStage =>
        }
      }
      ok := true;
    }

    method Decode(data: Bytes) returns (err: Option<WalError>)
      requires Valid()
      modifies this`logs, this`room, deployment, history.buffer, history.buffer.slots
      ensures Valid()
      ensures history.buffer.slots == old(history.buffer.slots) || fresh(history.buffer.slots)
      ensures |logs| <= old(room) ==> room == old(room)
      ensures match wire.unmarshal(data)
              case None => err == Some(BadMessage) && TheNode() == old(TheNode())
              case Some(m) =>
                && TheNode() == Absorb(recovering, old(TheNode()), m)
                && err == if Pass(PIPELINE, recovering, old(TheView()), m).ok then None else Some(Refused)
    {
      match wire.unmarshal(data) {
        case None =>
          return Some(BadMessage);
        case Some(m) =>
          var ok := Transcode(PIPELINE, m);
          if !ok {
            assert logs + [] == logs;
            return Some(Refused);
          }
          if m.ephemeral {
            assert logs + [] == logs;
            return None;
          }
          logs := logs + [m];
          if |logs| > room {
            var grown: nat :| grown >= |logs|;
            room := grown;
          }
          return None;
      }
    }

    /** Barriers and no-ops change nothing, and neither does a refused command. */
    method Apply(l: RaftLog) returns (err: Option<WalError>)
      requires Valid()
      modifies this`logs, this`room, deployment, history.buffer, history.buffer.slots
      ensures Valid()
      ensures history.buffer.slots == old(history.buffer.slots) || fresh(history.buffer.slots)
      ensures match l
              case Command(data) =>
                if wire.unmarshal(data).Some?
                then TheNode() == Absorb(recovering, old(TheNode()), wire.unmarshal(data).value)
                else TheNode() == old(TheNode())
              case _ => TheNode() == old(TheNode())
      ensures err.Some? ==> TheNode() == old(TheNode())
      ensures err.Some? <==> l.Command? && (wire.unmarshal(l.data).None? ||
                             !Accepts(old(TheView()).deploy, recovering, wire.unmarshal(l.data).value))
      ensures l.Command? && wire.unmarshal(l.data).Some? && !recovering ==>
              var a := LogSystem.Entry(wire.unmarshal(l.data).value, room - |logs|);
              forall x: LogSystem.World :: old(Shows(x)) && LogSystem.Enabled(wire, x, a) ==>
                Shows(LogSystem.Do(wire, x, a))
      ensures !l.Command? ==>
              forall x: LogSystem.World :: old(Shows(x)) && LogSystem.Enabled(wire, x, LogSystem.Idle) ==>
                Shows(LogSystem.Do(wire, x, LogSystem.Idle))
    {
      match l {
        case Command(data) =>
          ghost var before := TheNode();
          err := Decode(data);
          if wire.unmarshal(data).Some? {
            PipelineMeaning(recovering, before.view, wire.unmarshal(data).value);
            if err.Some? {
              RefusedEntryIsNoOp(recovering, before, wire.unmarshal(data).value);
            }
          }
        case Barrier =>
          err := None;
        case Noop =>
          err := None;
      }
    }

    method Snapshot() returns (s: WalSnapshot)
      requires Valid()
      modifies this`snapshots
      ensures fresh(s) && s.wal == this
      ensures TheNode() == old(TheNode()).(snapshots := old(snapshots) + 1)
      ensures s.snapshot == snapshots && s.min == 0 && s.max == |logs|
      ensures forall w, x: LogSystem.World :: old(Shows(x)) && LogSystem.Enabled(w, x, LogSystem.TakeSnapshot) ==>
                var x' := LogSystem.Do(w, x, LogSystem.TakeSnapshot);
                Shows(x') && s.Is(x') && x'.open.value.progress == LogSystem.Taken
    {
      snapshots := snapshots + 1;
      s := new WalSnapshot(this, snapshots, |logs|);
    }

    /** Starts over from what the reader holds, with the transcoders as they are. */
    method Restore(o: Reader) returns (err: Option<WalError>)
      requires Valid()
      modifies this, o, deployment, history.buffer, history.buffer.slots
      ensures Valid() && !recovering
      ensures Restored(TheNode(), err) == RestoreNode(wire, old(TheNode()), old(o.rest))
      ensures |logs| <= room && (|logs| <= 128 ==> room == 128)
      ensures forall x: LogSystem.World ::
                old(Shows(x)) && LogSystem.Enabled(wire, x, LogSystem.Restore(old(o.rest), room)) ==>
                Shows(LogSystem.Do(wire, x, LogSystem.Restore(old(o.rest), room)))
    {
      recovering := true;
      err := StartOver(o);
      recovering := false;
    }

    /** Reads the version message, then replays what follows until the reader ends. */
    method StartOver(o: Reader) returns (err: Option<WalError>)
      requires Valid() && recovering
      modifies this`logs, this`room, this`snapshots, o, deployment, history.buffer, history.buffer.slots
      ensures Valid()
      ensures Restored(TheNode(), err) == RestoreNode(wire, old(TheNode()), old(o.rest))
      ensures LogSystem.RestoredRoom(|logs|, room)
    {
      snapshots, logs, room := 0, [], RESTORED;
      var buf, e := DecodeRaw(o);
      if e.Some? {
        return Some(Io(e.value));
      }
      if !wire.isPreamble(buf) {
        return Some(BadMessage);
      }
      err := ReplayFrom(o);
    }

    method ReplayFrom(o: Reader) returns (err: Option<WalError>)
      requires Valid() && recovering && LogSystem.RestoredRoom(|logs|, room)
      modifies this`logs, this`room, o, deployment, history.buffer, history.buffer.slots
      ensures Valid()
      ensures Restored(TheNode(), err) == Replay(wire, old(TheNode()), old(o.rest))
      ensures LogSystem.RestoredRoom(|logs|, room)
    {
      while true
        invariant Valid() && recovering && snapshots == old(snapshots) && LogSystem.RestoredRoom(|logs|, room)
        invariant history.buffer.slots == old(history.buffer.slots) || fresh(history.buffer.slots)
        invariant Replay(wire, old(TheNode()), old(o.rest)) == Replay(wire, TheNode(), o.rest)
        decreases |o.rest|
      {
        ghost var n, front := TheNode(), o.rest;
        var encoded, e := DecodeRaw(o);
        if e.Some? {
          return if e.value == Eof then None else Some(Io(e.value));
        }
        err := Decode(encoded);
        if err.Some? {
          if wire.unmarshal(encoded).Some? {
            PipelineMeaning(true, n.view, wire.unmarshal(encoded).value);
          }
          return;
        }
      }
    }

    method Advance(n: nat)
      requires n <= |logs| <= room
      modifies this`logs, this`room
      ensures logs == old(logs)[n..] && room == old(room) - n
    {
      logs, room := logs[n..], room - n;
    }
  }

  /** Up to the length of the log what is kept are its messages from the last deploy
      command on. */
  lemma KeptOf(w: Wire<Message>, logs: seq<Message>, max: nat)
    requires max <= |logs|
    ensures var slots := SlotsOf(logs, max);
            SlotBytes(w, slots[LastDeployAt(slots)..]) == SnapshotBytes(w, FromLastDeploy(logs[..max]))
  {
    WithinLength(logs, max);
    assert SlotsOf(logs, max)[LastDeploy(logs[..max])..] == Filled(FromLastDeploy(logs[..max]));
    FilledBytes(w, FromLastDeploy(logs[..max]));
  }

  datatype Persisted = Written | SinkFailed | Panicked

  class WalSnapshot {
    const snapshot: nat
    const wal: Wal
    const max: nat
    var min: nat

    constructor (wal: Wal, snapshot: nat, max: nat)
      ensures this.wal == wal && this.snapshot == snapshot && this.max == max && min == 0
    {
      this.wal, this.snapshot, this.max, min := wal, snapshot, max, 0;
    }

    /** It is the snapshot in hand of a world of the step system. */
    ghost predicate Is(s: LogSystem.World)
      reads this, wal
    {
      && s.node.logs == wal.logs && s.node.snapshots == wal.snapshots && s.room == wal.room
      && s.open.Some? && s.open.value.id == snapshot && s.open.value.min == min && s.open.value.max == max
    }

    /** Slices the log up to its mark, which panics beyond the capacity and finds nil
        messages beyond the length, and writes it from its last deploy command on; a
        sink that fails is cancelled, with as much in it as it has room for. */
    method Persist(sink: Sink) returns (r: Persisted)
      requires min == 0 && sink.written == []
      modifies this`min, sink
      ensures r == Panicked <==> max > wal.room
      ensures r != Panicked ==>
              var slots := SlotsOf(wal.logs, max);
              var bytes := SlotBytes(wal.wire, slots[LastDeployAt(slots)..]);
              && min == LastDeployAt(slots)
              && sink.written == UpTo(bytes, sink.room)
              && (r == Written <==> sink.closes && |bytes| <= sink.room)
              && (r == Written ==> sink.closed)
              && (|bytes| > sink.room ==> sink.cancelled)
      ensures r == Written && max <= |wal.logs| ==>
              sink.written == SnapshotBytes(wal.wire, FromLastDeploy(wal.logs[..max]))
      ensures forall w, x: LogSystem.World :: old(Is(x)) && LogSystem.Enabled(w, x, LogSystem.Scan) ==>
                var x' := LogSystem.Do(w, x, LogSystem.Scan);
                if r == Panicked then x'.crashed else Is(x') && !x'.crashed
    {
      if max > wal.room {
        return Panicked;
      }
      var slots := SlotsOf(wal.logs, max);
      FindStart(slots);
      if max <= |wal.logs| {
        KeptOf(wal.wire, wal.logs, max);
      }
      r := Spool(sink, slots[min..]);
    }

    /** The writes of `Persist`. */
    method Spool(sink: Sink, kept: seq<Slot>) returns (r: Persisted)
      requires sink.written == []
      modifies sink
      ensures var bytes := SlotBytes(wal.wire, kept);
              && r != Panicked
              && sink.written == UpTo(bytes, sink.room)
              && (r == Written <==> sink.closes && |bytes| <= sink.room)
              && (r == Written ==> sink.closed)
              && (|bytes| > sink.room ==> sink.cancelled)
    {
      var header := EncodeRaw(wal.wire.preamble);
      assert [] + header == header;
      var ok := sink.Write(header);
      if !ok {
        assert (header + EncodeSlots(wal.wire, kept))[..sink.room] == header[..sink.room];
        sink.Cancel();
        return SinkFailed;
      }
      ok := EncodeTo(wal.wire, sink, kept);
      if !ok {
        sink.Cancel();
        return SinkFailed;
      }
      ok := sink.Close();
      r := if ok then Written else SinkFailed;
    }

    /** The first loop of `Persist`. */
    method FindStart(slots: seq<Slot>)
      requires min == 0
      modifies this`min
      ensures min == LastDeployAt(slots)
    {
      for i := 0 to |slots|
        invariant min == LastDeployAt(slots[..i])
      {
        assert slots[..i + 1][..i] == slots[..i];
        if slots[i].Some? && slots[i].value.kind == DeployCommandEvent {
          min := i;
        }
      }
      assert slots[..|slots|] == slots;
    }

    method Release()
      requires snapshot == wal.snapshots ==> min <= |wal.logs| <= wal.room
      modifies wal`logs, wal`room
      ensures if snapshot == wal.snapshots then wal.logs == old(wal.logs)[min..] && wal.room == old(wal.room) - min
              else wal.logs == old(wal.logs) && wal.room == old(wal.room)
      ensures forall w, x: LogSystem.World :: old(Is(x)) && LogSystem.Enabled(w, x, LogSystem.Release) ==>
                var x' := LogSystem.Do(w, x, LogSystem.Release);
                !x'.crashed && x'.node.logs == wal.logs && x'.room == wal.room
    {
      if snapshot == wal.snapshots {
        wal.Advance(min);
      }
    }
  }
}
