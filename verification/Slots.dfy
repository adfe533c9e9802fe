/** What a snapshot reads off the array behind the log (agent/quorum/wal.go). A slice
    expression may go past the length of the log, up to the capacity of its array; the
    places there hold nil messages, which have no type and encode to nothing. */
module Slots {
  import opened Base
  import opened Messages
  import opened Framing
  import opened Replica
  import opened Recovery

  /** A place in the array; `None` is a nil message. */
  type Slot = Option<Message>

  /** The capacity a restored log starts with. */
  const RESTORED: nat := 128

  /** The first `n` places of the array of a log. */
  function SlotsOf(log: seq<Message>, n: nat): seq<Slot> {
    seq(n, i requires 0 <= i < n => if i < |log| then Some(log[i]) else None)
  }

  function SlotWire(w: Wire<Message>): Wire<Slot> {
    Wire((s: Slot) => if s.Some? then w.marshal(s.value) else [],
         (b: Bytes) => Some(w.unmarshal(b)), w.preamble, w.isPreamble)
  }

  function EncodeSlots(w: Wire<Message>, slots: seq<Slot>): Bytes {
    EncodeAll(SlotWire(w), slots)
  }

  function SlotBytes(w: Wire<Message>, slots: seq<Slot>): Bytes {
    EncodeRaw(w.preamble) + EncodeSlots(w, slots)
  }

  lemma EncodeOneMore(w: Wire<Message>, slots: seq<Slot>, next: Slot)
    ensures EncodeSlots(w, slots + [next]) == EncodeSlots(w, slots) + EncodeRaw(SlotWire(w).marshal(next))
  {
    var one, frame := [next], EncodeRaw(SlotWire(w).marshal(next));
    EncodeAllAppend(SlotWire(w), slots, one);
    assert one[1..] == [] && EncodeAll(SlotWire(w), one) == frame + [] == frame;
  }

  /** Where the last deploy command stands among the places, or 0 without one. */
  function LastDeployAt(slots: seq<Slot>): (i: nat)
    ensures i <= |slots|
  {
    if slots == [] then 0
    else
      var last := slots[|slots| - 1];
      if last.Some? && IsDeploy(last.value) then |slots| - 1 else LastDeployAt(slots[..|slots| - 1])
  }

  lemma {:induction false} LastDeployAtMeaning(slots: seq<Slot>)
    ensures forall k :: LastDeployAt(slots) < k < |slots| && slots[k].Some? ==> !IsDeploy(slots[k].value)
    ensures LastDeployAt(slots) > 0 ==>
            && LastDeployAt(slots) < |slots| && slots[LastDeployAt(slots)].Some?
            && IsDeploy(slots[LastDeployAt(slots)].value)
  {
    if slots != [] {
      var front, last := slots[..|slots| - 1], slots[|slots| - 1];
      LastDeployAtMeaning(front);
      assert forall k :: 0 <= k < |front| ==> slots[k] == front[k];
    }
  }

  /** Up to the length of the log nothing is new. */
  lemma {:induction false} WithinLength(log: seq<Message>, n: nat)
    requires n <= |log|
    ensures LastDeployAt(SlotsOf(log, n)) == LastDeploy(log[..n])
    decreases n
  {
    if n > 0 {
      WithinLength(log, n - 1);
      assert SlotsOf(log, n)[..n - 1] == SlotsOf(log, n - 1);
      assert log[..n][..n - 1] == log[..n - 1];
    }
  }

  /** Messages as places, none of them nil. */
  function Filled(ms: seq<Message>): seq<Slot> {
    SlotsOf(ms, |ms|)
  }

  lemma FilledBytes(w: Wire<Message>, ms: seq<Message>)
    ensures EncodeSlots(w, Filled(ms)) == EncodeAll(w, ms)
    ensures SlotBytes(w, Filled(ms)) == SnapshotBytes(w, ms)
  {
    FramesOfPayloads(SlotWire(w), Filled(ms));
    FramesOfPayloads(w, ms);
    assert Payloads(SlotWire(w), Filled(ms)) == Payloads(w, ms);
  }

  function Zeros(n: nat): Bytes {
    seq(n, _ => 0)
  }

  lemma {:induction false} NilBytes(w: Wire<Message>, n: nat)
    ensures EncodeSlots(w, SlotsOf([], n)) == Zeros(8 * n)
  {
    if n > 0 {
      NilBytes(w, n - 1);
      assert SlotsOf([], n) == SlotsOf([], n - 1) + [None];
      EncodeOneMore(w, SlotsOf([], n - 1), None);
      FrameOfNothing();
    }
  }

  lemma FrameOfNothing()
    ensures EncodeRaw([]) == Zeros(8)
  {
    forall i | 0 <= i < 8
      ensures |EncodeRaw([])| == 8 && EncodeRaw([])[i] == 0
    {
      FrameBytes([], i);
      NothingDivided(Power256(i));
    }
  }

  lemma NothingDivided(d: nat)
    requires d > 0
    ensures 0 / d % 256 == 0
  {
  }

  /** Reading on past the end of the log gives its messages and then eight zero bytes for
      each place there. */
  lemma BytesPastEnd(w: Wire<Message>, log: seq<Message>, n: nat)
    requires |log| <= n
    ensures EncodeSlots(w, SlotsOf(log, n)) == EncodeAll(w, log) + Zeros(8 * (n - |log|))
  {
    assert SlotsOf(log, n) == Filled(log) + SlotsOf([], n - |log|);
    EncodeAllAppend(SlotWire(w), Filled(log), SlotsOf([], n - |log|));
    FilledBytes(w, log);
    NilBytes(w, n - |log|);
  }

  /** Besides undoing marshalling, unmarshalling takes nothing at all for a message of
      the first type, which is no deploy command. */
  ghost predicate Proto(w: Wire<Message>) {
    Lawful(w) && forall m :: w.marshal(m) == [] ==> !IsDeploy(m)
  }

  /** A place stands for a message: it holds it, or holds nothing and the message
      encodes to nothing. */
  predicate Holds(w: Wire<Message>, s: Slot, m: Message) {
    if s.Some? then s.value == m else w.marshal(m) == []
  }

  predicate Matches(w: Wire<Message>, slots: seq<Slot>, ms: seq<Message>) {
    |slots| == |ms| && forall i :: 0 <= i < |ms| ==> Holds(w, slots[i], ms[i])
  }

  /** What was written is the snapshot of some messages exactly when the places
      written match them. */
  lemma RightBytesIff(w: Wire<Message>, slots: seq<Slot>, ms: seq<Message>)
    requires Lawful(w) && AllSized(SlotWire(w), slots) && AllSized(w, ms)
    ensures SlotBytes(w, slots) == SnapshotBytes(w, ms) <==> Matches(w, slots, ms)
  {
    var header := EncodeRaw(w.preamble);
    assert SlotBytes(w, slots)[|header|..] == EncodeSlots(w, slots);
    assert SnapshotBytes(w, ms)[|header|..] == EncodeAll(w, ms);
    SameFrames(SlotWire(w), slots, w, ms);
    SamePayloadsIff(w, slots, ms);
  }

  lemma SamePayloadsIff(w: Wire<Message>, slots: seq<Slot>, ms: seq<Message>)
    requires Lawful(w)
    ensures Payloads(SlotWire(w), slots) == Payloads(w, ms) <==> Matches(w, slots, ms)
  {
    var p, q := Payloads(SlotWire(w), slots), Payloads(w, ms);
    if |slots| == |ms| {
      forall i | 0 <= i < |ms|
        ensures p[i] == q[i] <==> Holds(w, slots[i], ms[i])
      {
        if slots[i].Some? {
          assert w.unmarshal(w.marshal(slots[i].value)) == Some(slots[i].value);
          assert w.unmarshal(w.marshal(ms[i])) == Some(ms[i]);
        }
      }
    }
  }
}
