/** The bounded deploy history (agent/quorum/history.go). */
module HistoryRing {
  import opened Base
  import opened Messages

  const CAPACITY: nat := 128

  predicate Visible(m: Message) {
    !m.hidden
  }

  predicate VisibleBegin(m: Message) {
    Visible(m) && IsDeploy(m) && IsCommand(m, Begin)
  }

  /** What one accepted message does to the remembered messages, oldest first. */
  function Remember(h: seq<Message>, m: Message): seq<Message> {
    if !Visible(m) then h
    else if VisibleBegin(m) then [m]
    else LastN(h + [m], CAPACITY)
  }

  function RememberAll(h: seq<Message>, ms: seq<Message>): seq<Message> {
    if ms == [] then h else Remember(RememberAll(h, ms[..|ms| - 1]), ms[|ms| - 1])
  }

  /** Where the last Begin that is not hidden stands, or 0 without one. */
  function LastBegin(ms: seq<Message>): (i: nat)
    ensures i <= |ms|
  {
    if ms == [] then 0
    else if VisibleBegin(ms[|ms| - 1]) then |ms| - 1
    else LastBegin(ms[..|ms| - 1])
  }

  /** The messages a reader may see since the last Begin, that one included. */
  function VisibleSinceBegin(ms: seq<Message>): seq<Message> {
    Filter(Visible, ms[LastBegin(ms)..])
  }

  /** The ring holds the last 128 of the messages since the last Begin, in order. */
  lemma {:induction false} RingIsSuffix(ms: seq<Message>)
    ensures RememberAll([], ms) == LastN(VisibleSinceBegin(ms), CAPACITY)
  {
    if ms != [] {
      var front, m := ms[..|ms| - 1], ms[|ms| - 1];
      RingIsSuffix(front);
      if VisibleBegin(m) {
        assert ms[|ms| - 1..] == [m];
        assert Filter(Visible, [m]) == [m] + Filter(Visible, [m][1..]);
      } else {
        var i := LastBegin(front);
        assert ms[i..] == front[i..] + [m];
        FilterAppend(Visible, front[i..], [m]);
        assert Filter(Visible, [m]) == if Visible(m) then [m] else [];
        LastNOfLastN(VisibleSinceBegin(front), m, CAPACITY);
        assert VisibleSinceBegin(front) + [] == VisibleSinceBegin(front);
      }
    }
  }

  /** That is as many as there are, up to 128. */
  lemma RingSize(ms: seq<Message>)
    ensures |RememberAll([], ms)| == if |VisibleSinceBegin(ms)| <= 128 then |VisibleSinceBegin(ms)| else 128
    ensures |VisibleSinceBegin(ms)| >= 128 ==>
            RememberAll([], ms) == VisibleSinceBegin(ms)[|VisibleSinceBegin(ms)| - 128..]
  {
    RingIsSuffix(ms);
  }

  /** Forgetting early does not change which messages are last. */
  lemma LastNOfLastN(s: seq<Message>, m: Message, n: nat)
    requires n > 0
    ensures LastN(LastN(s, n) + [m], n) == LastN(s + [m], n)
  {
  }

  /** A visible Begin makes what came before it irrelevant. */
  lemma {:induction false} BeginForgets(g: seq<Message>, h: seq<Message>, begin: Message, ms: seq<Message>)
    requires VisibleBegin(begin)
    ensures RememberAll(g, [begin] + ms) == RememberAll(h, [begin] + ms)
  {
    if ms == [] {
      assert ([begin] + ms)[..0] == [];
    } else {
      BeginForgets(g, h, begin, ms[..|ms| - 1]);
      assert ([begin] + ms)[..|[begin] + ms| - 1] == [begin] + ms[..|ms| - 1];
    }
  }

  // ---------------------------------------------------------------------------

  /** What the ring's slots hold, read once around from the pointer: the slots not
      written yet, then the messages. */
  function Layout(n: nat, contents: seq<Message>): seq<Option<Message>>
    requires |contents| <= n
  {
    seq(n - |contents|, _ => None) + seq(|contents|, i requires 0 <= i < |contents| => Some(contents[i]))
  }

  /** Writing the slot at the pointer and moving on drops the oldest message once
      the ring is full. */
  lemma LayoutAdd(n: nat, contents: seq<Message>, m: Message)
    requires n > 0 && |contents| <= n
    ensures Layout(n, contents)[1..] + [Some(m)] == Layout(n, LastN(contents + [m], n))
  {
  }

  /** A ring of slots; `next` is the slot the next message goes to. */
  class LogBuffer {
    var slots: array<Option<Message>>
    var next: nat
    ghost var contents: seq<Message>

    ghost predicate Valid()
      reads this, slots
    {
      && 0 < slots.Length
      && next < slots.Length
      && |contents| <= slots.Length
      && slots[next..] + slots[..next] == Layout(slots.Length, contents)
    }

    constructor (n: nat)
      requires n > 0
      ensures Valid() && fresh(slots) && slots.Length == n && contents == []
    {
      slots := new Option<Message>[n](_ => None);
      next := 0;
      contents := [];
    }

    method Reset()
      requires Valid()
      modifies this
      ensures Valid() && fresh(slots) && slots.Length == old(slots.Length) && contents == []
    {
      slots := new Option<Message>[slots.Length](_ => None);
      next := 0;
      contents := [];
    }

    method Add(m: Message)
      requires Valid()
      modifies this`next, this`contents, slots
      ensures Valid()
      ensures contents == LastN(old(contents) + [m], slots.Length)
    {
      ghost var before := slots[next..] + slots[..next];
      LayoutAdd(slots.Length, contents, m);
      contents := LastN(contents + [m], slots.Length);
      slots[next] := Some(m);
      next := if next + 1 == slots.Length then 0 else next + 1;
      assert slots[next..] + slots[..next] == before[1..] + [Some(m)];
    }

    /** Walks once around the ring from the pointer, skipping empty slots. */
    method Snapshot() returns (history: seq<Message>)
      requires Valid()
      ensures history == contents
    {
      history := [];
      ghost var around := slots[next..] + slots[..next];
      ghost var empty := slots.Length - |contents|;
      for i := 0 to slots.Length
        invariant history == if i <= empty then [] else contents[..i - empty]
      {
        var at := if next + i < slots.Length then next + i else next + i - slots.Length;
        assert around[i] == slots[at];
        match slots[at] {
          case None =>
          case Some(m) => history := history + [m];
        }
      }
    }
  }

  class History {
    const buffer: LogBuffer

    ghost predicate Valid()
      reads this, buffer, buffer.slots
    {
      buffer.Valid() && buffer.slots.Length == CAPACITY
    }

    ghost function Contents(): seq<Message>
      reads this, buffer
    {
      buffer.contents
    }

    constructor ()
      ensures Valid() && fresh(buffer) && fresh(buffer.slots) && Contents() == []
    {
      buffer := new LogBuffer(CAPACITY);
    }

    method Decode(m: Message)
      requires Valid()
      modifies buffer, buffer.slots
      ensures Valid() && Contents() == Remember(old(Contents()), m)
      ensures buffer.slots == old(buffer.slots) || fresh(buffer.slots)
    {
      if m.hidden {
        return;
      }
      if m.kind == DeployCommandEvent && m.event.dc.command == Begin {
        buffer.Reset();
      }
      buffer.Add(m);
    }
  }
}
