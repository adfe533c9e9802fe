/** The bytes of a snapshot and what restoring from bytes does (agent/quorum/wal.go). */
module Recovery {
  import opened Base
  import opened Messages
  import opened Framing
  import opened DeployMachine
  import opened HistoryRing
  import opened Replica

  function SnapshotBytes(w: Wire<Message>, ms: seq<Message>): Bytes {
    EncodeRaw(w.preamble) + EncodeAll(w, ms)
  }

  datatype WalError = Io(err: IoError) | BadMessage | Refused

  datatype Restored = Restored(node: Node, err: Option<WalError>)

  /** The replay loop of `Restore`. */
  function Replay(w: Wire<Message>, n: Node, data: Bytes): Restored
    decreases |data|
  {
    match RawAt(data)
    case Stop(e) => Restored(n, if e == Eof then None else Some(Io(e)))
    case Frame(payload, rest) =>
      match w.unmarshal(payload)
      case None => Restored(n, Some(BadMessage))
      case Some(m) =>
        if Pass(PIPELINE, true, n.view, m).ok then Replay(w, Absorb(true, n, m), rest)
        else Restored(n, Some(Refused))
  }

  /** `Restore`: the log and the snapshot counter start over, the transcoders keep
      their state. */
  function RestoreNode(w: Wire<Message>, n: Node, data: Bytes): Restored {
    var n0 := n.(logs := [], snapshots := 0);
    match RawAt(data)
    case Stop(e) => Restored(n0, Some(Io(e)))
    case Frame(payload, rest) =>
      if w.isPreamble(payload) then Replay(w, n0, rest) else Restored(n0, Some(BadMessage))
  }

  function AsWalError(e: Option<IoError>): Option<WalError> {
    match e
    case None => None
    case Some(Malformed) => Some(BadMessage)
    case Some(e) => Some(Io(e))
  }

  /** Replaying is decoding the stream and absorbing what it holds; the deployment
      never refuses a replayed message. */
  lemma {:induction false} ReplayIsDecodeThenAbsorb(w: Wire<Message>, n: Node, data: Bytes)
    ensures var d := DecodeAll(w, data);
            Replay(w, n, data) == Restored(AbsorbAll(true, n, d.messages), AsWalError(d.err))
    decreases |data|
  {
    var raw := RawAt(data);
    if raw.Frame? && w.unmarshal(raw.payload).Some? {
      var m := w.unmarshal(raw.payload).value;
      PipelineMeaning(true, n.view, m);
      ReplayIsDecodeThenAbsorb(w, Absorb(true, n, m), raw.rest);
      var tail := DecodeAll(w, raw.rest).messages;
      AbsorbAllAppend(true, n, [m], tail);
      assert [m][..0] == [];
      assert AbsorbAll(true, n, [m]) == Absorb(true, n, m);
    }
  }

  /** A replayed list of durable messages becomes the log, whatever was there. */
  lemma ReplayedLog(n: Node, ms: seq<Message>)
    requires forall m :: m in ms ==> Durable(m)
    ensures AbsorbAll(true, n, ms) ==
            Node(View(Steps(n.view.deploy, true, ms), RememberAll(n.view.history, ms)), n.logs + ms, n.snapshots)
  {
    AbsorbAllMeaning(true, n, ms);
    RecoveryAcceptsAll(n.view.deploy, ms);
    FilterAll(Durable, ms);
  }

  /** Restoring a complete snapshot succeeds on every node, flag set or not, and
      leaves exactly its messages in the log. */
  lemma RestoreSucceeds(w: Wire<Message>, n: Node, ms: seq<Message>)
    requires Lawful(w) && AllSized(w, ms) && forall m :: m in ms ==> Durable(m)
    ensures RestoreNode(w, n, SnapshotBytes(w, ms)) ==
            Restored(Node(View(Steps(n.view.deploy, true, ms), RememberAll(n.view.history, ms)), ms, 0), None)
  {
    var n0 := n.(logs := [], snapshots := 0);
    RawOfFrame(w.preamble, EncodeAll(w, ms));
    ReplayIsDecodeThenAbsorb(w, n0, EncodeAll(w, ms));
    DecodeRoundTrip(w, ms);
    ReplayedLog(n0, ms);
    assert [] + ms == ms;
  }

  lemma RestoreCutHeader(w: Wire<Message>, n: Node, ms: seq<Message>, k: nat)
    requires Lawful(w) && k < |EncodeRaw(w.preamble)|
    ensures var r := RestoreNode(w, n, SnapshotBytes(w, ms)[..k]);
            r.err.Some? && r.node.logs == []
  {
    assert SnapshotBytes(w, ms)[..k] == EncodeRaw(w.preamble)[..k];
    RawOfCutFrame(w.preamble, k);
  }

  lemma RestoreCutBody(w: Wire<Message>, n: Node, ms: seq<Message>, k: nat) returns (j: nat)
    requires Lawful(w) && AllSized(w, ms) && forall m :: m in ms ==> Durable(m)
    requires k <= |EncodeAll(w, ms)|
    ensures var r := RestoreNode(w, n, EncodeRaw(w.preamble) + EncodeAll(w, ms)[..k]);
            && FirstIncomplete(w, ms, k, j)
            && r.node.logs == ms[..j]
            && (r.err.None? <==> SilentCut(w, ms, k, j))
  {
    var n0 := n.(logs := [], snapshots := 0);
    var rest := EncodeAll(w, ms)[..k];
    RawOfFrame(w.preamble, rest);
    j := DecodeAnyCut(w, ms, k);
    ReplayIsDecodeThenAbsorb(w, n0, rest);
    ReplayedLog(n0, ms[..j]);
    assert [] + ms[..j] == ms[..j];
  }

  /** Restoring a snapshot cut anywhere: a cut inside the version message is always
      an error; after it, the messages whose frames are complete are in the log, and
      there is no error exactly when the cut is a silent one. */
  lemma RestoreTruncated(w: Wire<Message>, n: Node, ms: seq<Message>, k: nat) returns (j: nat)
    requires Lawful(w) && AllSized(w, ms) && forall m :: m in ms ==> Durable(m)
    requires k <= |SnapshotBytes(w, ms)|
    ensures var r := RestoreNode(w, n, SnapshotBytes(w, ms)[..k]);
            var h := |EncodeRaw(w.preamble)|;
            if k < h then r.err.Some? && r.node.logs == []
            else
              && FirstIncomplete(w, ms, k - h, j)
              && r.node.logs == ms[..j]
              && (r.err.None? <==> SilentCut(w, ms, k - h, j))
  {
    var header := EncodeRaw(w.preamble);
    if k < |header| {
      RestoreCutHeader(w, n, ms, k);
      j := 0;
    } else {
      j := RestoreCutBody(w, n, ms, k - |header|);
      assert SnapshotBytes(w, ms)[..k] == header + EncodeAll(w, ms)[..k - |header|];
    }
  }

  /** A snapshot of one message cut right after the header of its frame restores
      without an error, and without the message. */
  lemma LosesMessageSilently(w: Wire<Message>, n: Node, m: Message)
    requires Lawful(w) && Sized(w, m) && Durable(m) && w.marshal(m) != []
    ensures var k := |EncodeRaw(w.preamble)| + HEADER;
            && k <= |SnapshotBytes(w, [m])|
            && var r := RestoreNode(w, n, SnapshotBytes(w, [m])[..k]);
               r.err == None && r.node.logs == []
  {
    var ms := [m];
    BoundaryShift(w, ms, 1);
    assert ms[1..] == [] && ms[..0] == [];
    var j := RestoreTruncated(w, n, ms, |EncodeRaw(w.preamble)| + HEADER);
    FirstIncompleteUnique(w, ms, HEADER, j, 0);
  }

  /** Bytes that do not begin with a version message are refused: the log is empty then,
      and the transcoders have seen nothing. */
  lemma BadVersion(w: Wire<Message>, n: Node, payload: Bytes, rest: Bytes)
    requires |payload| < LENGTH_LIMIT && !w.isPreamble(payload)
    ensures RestoreNode(w, n, EncodeRaw(payload) + rest) == Restored(n.(logs := [], snapshots := 0), Some(BadMessage))
  {
    RawOfFrame(payload, rest);
  }

  /** So are no bytes at all. */
  lemma NoVersion(w: Wire<Message>, n: Node)
    ensures RestoreNode(w, n, []) == Restored(n.(logs := [], snapshots := 0), Some(Io(Eof)))
  {
  }
}
