/** The length-prefixed framing of persisted messages (agent/quorum/transcoders.go). */
module Framing {
  import opened Base

  // ---------------------------------------------------------------------------
  // Little-endian integers

  function Power256(k: nat): (p: nat)
    ensures p > 0
  {
    if k == 0 then 1 else 256 * Power256(k - 1)
  }

  /** The `k` low-order bytes of `n`, least significant first; higher bytes are
      dropped, as a conversion to a fixed-width integer does. */
  function LittleEndian(n: nat, k: nat): (b: Bytes)
    ensures |b| == k
  {
    if k == 0 then [] else [n % 256] + LittleEndian(n / 256, k - 1)
  }

  function FromLittleEndian(b: Bytes): nat {
    if b == [] then 0 else b[0] + 256 * FromLittleEndian(b[1..])
  }

  lemma MultipleBound(d: int, x: int)
    requires d > 0
    ensures x >= 1 ==> d * x >= d
    ensures x <= -1 ==> d * x <= -d
  {
  }

  lemma ModUnique(n: int, d: int, q: int, r: int)
    requires d > 0 && 0 <= r < d && n == d * q + r
    ensures n % d == r
  {
    var q', r' := n / d, n % d;
    assert n == d * q' + r';
    assert d * (q - q') == r' - r;
    MultipleBound(d, q - q');
  }

  lemma LowDigits(n: nat, p: nat)
    requires p > 0
    ensures n % (256 * p) == n % 256 + 256 * (n / 256 % p)
  {
    var q, r := n / 256, n % 256;
    var a, b := q / p, q % p;
    assert q == p * a + b;
    assert n == 256 * (p * a + b) + r;
    assert 256 * (p * a) == (256 * p) * a;
    ModUnique(n, 256 * p, a, 256 * b + r);
  }

  lemma {:induction false} LittleEndianRoundTrip(n: nat, k: nat)
    ensures FromLittleEndian(LittleEndian(n, k)) == n % Power256(k)
  {
    if k > 0 {
      LittleEndianRoundTrip(n / 256, k - 1);
      assert LittleEndian(n, k)[1..] == LittleEndian(n / 256, k - 1);
      LowDigits(n, Power256(k - 1));
    }
  }

  const HEADER: nat := 8

  /** One more than the largest length an eight byte header can carry. */
  const LENGTH_LIMIT: nat := 0x1_0000_0000_0000_0000

  lemma HeaderRoundTrip(n: nat)
    requires n < LENGTH_LIMIT
    ensures FromLittleEndian(LittleEndian(n, HEADER)) == n
  {
    LittleEndianRoundTrip(n, HEADER);
    assert Power256(4) == 0x1_0000_0000;
    assert Power256(8) == 256 * (256 * (256 * (256 * Power256(4))));
  }

  // ---------------------------------------------------------------------------
  // One frame

  datatype IoError = Eof | UnexpectedEof | Malformed | WriteFailed

  /** What reading one frame at the front of a stream gives. */
  datatype Raw = Frame(payload: Bytes, rest: Bytes) | Stop(err: IoError)

  function EncodeRaw(payload: Bytes): Bytes {
    LittleEndian(|payload|, HEADER) + payload
  }

  /** Eight bytes, least significant first, then the payload. */
  lemma FrameBytes(payload: Bytes, i: nat)
    requires i < 8 + |payload|
    ensures var frame := EncodeRaw(payload);
            && |frame| == 8 + |payload|
            && (i >= 8 ==> frame[i] == payload[i - 8])
            && (i < 8 ==> frame[i] == |payload| / Power256(i) % 256)
  {
    if i < 8 {
      DigitAt(|payload|, HEADER, i);
    }
  }

  lemma {:induction false} DigitAt(n: nat, k: nat, i: nat)
    requires i < k
    ensures LittleEndian(n, k)[i] == n / Power256(i) % 256
    decreases k
  {
    if i > 0 {
      DigitAt(n / 256, k - 1, i - 1);
      DivideTwice(n, Power256(i - 1));
    }
  }

  lemma DivideTwice(n: nat, p: nat)
    requires p > 0
    ensures n / 256 / p == n / (256 * p)
  {
    var a, r := n / 256, n % 256;
    var q, s := a / p, a % p;
    assert a == p * q + s;
    assert n == 256 * (p * q + s) + r;
    assert 256 * (p * q) == (256 * p) * q;
    QuotientUnique(n, 256 * p, q, 256 * s + r);
  }

  lemma QuotientUnique(n: int, d: int, q: int, r: int)
    requires d > 0 && 0 <= r < d && n == d * q + r
    ensures n / d == q
  {
    var q', r' := n / d, n % d;
    assert n == d * q' + r';
    assert d * (q - q') == r' - r;
    MultipleBound(d, q - q');
  }

  /** `io.ReadFull`: nothing at all is an end of file, a part is an unexpected one. */
  function ReadFullAt(data: Bytes, n: nat): Raw {
    if n <= |data| then Frame(data[..n], data[n..])
    else if data == [] then Stop(Eof)
    else Stop(UnexpectedEof)
  }

  function RawAt(data: Bytes): (r: Raw)
    ensures r.Frame? ==> |r.rest| + HEADER <= |data|
  {
    match ReadFullAt(data, HEADER)
    case Stop(e) => Stop(e)
    case Frame(header, body) => ReadFullAt(body, FromLittleEndian(header))
  }

  /** The front frame decodes to its payload whatever follows it. */
  lemma RawOfFrame(payload: Bytes, rest: Bytes)
    requires |payload| < LENGTH_LIMIT
    ensures RawAt(EncodeRaw(payload) + rest) == Frame(payload, rest)
  {
    var data := EncodeRaw(payload) + rest;
    HeaderRoundTrip(|payload|);
    assert data[..HEADER] == LittleEndian(|payload|, HEADER);
    assert data[HEADER..] == payload + rest;
    assert (payload + rest)[..|payload|] == payload;
    assert (payload + rest)[|payload|..] == rest;
  }

  /** A frame cut short never decodes, and the kind of error tells where the cut is. */
  lemma RawOfCutFrame(payload: Bytes, k: nat)
    requires |payload| < LENGTH_LIMIT && k < HEADER + |payload|
    ensures RawAt(EncodeRaw(payload)[..k]) == Stop(if k == 0 || k == HEADER then Eof else UnexpectedEof)
  {
    var data := EncodeRaw(payload)[..k];
    if k >= HEADER {
      HeaderRoundTrip(|payload|);
      assert data[..HEADER] == LittleEndian(|payload|, HEADER);
      assert data[HEADER..] == payload[..k - HEADER];
    }
  }

  // ---------------------------------------------------------------------------
  // A stream of messages

  /** Marshalling, taken as a pair of functions. `preamble` is the encoded version
      message that opens a snapshot. */
  datatype Wire<!M> = Wire(
    marshal: M -> Bytes,
    unmarshal: Bytes -> Option<M>,
    preamble: Bytes,
    isPreamble: Bytes -> bool)

  /** Unmarshalling undoes marshalling. */
  ghost predicate Lawful<M(!new)>(w: Wire<M>) {
    && (forall m :: w.unmarshal(w.marshal(m)) == Some(m))
    && w.isPreamble(w.preamble)
    && |w.preamble| < LENGTH_LIMIT
  }

  /** The encoded length fits the header, as that of any byte slice does. */
  predicate Sized<M>(w: Wire<M>, m: M) {
    |w.marshal(m)| < LENGTH_LIMIT
  }

  predicate AllSized<M>(w: Wire<M>, ms: seq<M>) {
    forall i :: 0 <= i < |ms| ==> Sized(w, ms[i])
  }

  function EncodeAll<M>(w: Wire<M>, ms: seq<M>): Bytes {
    if ms == [] then [] else EncodeRaw(w.marshal(ms[0])) + EncodeAll(w, ms[1..])
  }

  lemma Associative(a: Bytes, b: Bytes, c: Bytes)
    ensures a + (b + c) == (a + b) + c
  {
  }

  lemma {:induction false} EncodeAllAppend<M>(w: Wire<M>, ms: seq<M>, ns: seq<M>)
    ensures EncodeAll(w, ms + ns) == EncodeAll(w, ms) + EncodeAll(w, ns)
  {
    if ms == [] {
      assert ms + ns == ns;
    } else {
      var frame, a, b := EncodeRaw(w.marshal(ms[0])), EncodeAll(w, ms[1..]), EncodeAll(w, ns);
      EncodeAllAppend(w, ms[1..], ns);
      assert (ms + ns)[1..] == ms[1..] + ns;
      Associative(frame, a, b);
    }
  }

  datatype Decoded<M> = Decoded(messages: seq<M>, err: Option<IoError>)

  /** What decoding a stream to its end gives. An end of file where a frame would
      start, or where its payload would start, is not reported. */
  function DecodeAll<M>(w: Wire<M>, data: Bytes): Decoded<M>
    decreases |data|
  {
    match RawAt(data)
    case Stop(e) => Decoded([], if e == Eof then None else Some(e))
    case Frame(payload, rest) =>
      match w.unmarshal(payload)
      case None => Decoded([], Some(Malformed))
      case Some(m) =>
        var tail := DecodeAll(w, rest);
        Decoded([m] + tail.messages, tail.err)
  }

  /** Where the frame of message `i` starts. */
  function Boundary<M>(w: Wire<M>, ms: seq<M>, i: nat): nat
    requires i <= |ms|
  {
    |EncodeAll(w, ms[..i])|
  }

  lemma BoundaryShift<M>(w: Wire<M>, ms: seq<M>, i: nat)
    requires 0 < i <= |ms|
    ensures Boundary(w, ms, i) == |EncodeRaw(w.marshal(ms[0]))| + Boundary(w, ms[1..], i - 1)
  {
    assert ms[..i][1..] == ms[1..][..i - 1];
  }

  /** Frame `j` is the first one the first `k` bytes do not hold entirely. */
  predicate FirstIncomplete<M>(w: Wire<M>, ms: seq<M>, k: nat, j: nat) {
    j <= |ms| && Boundary(w, ms, j) <= k && (j < |ms| ==> k < Boundary(w, ms, j + 1))
  }

  /** The cuts a reader cannot tell from the end of the stream. */
  predicate SilentCut<M>(w: Wire<M>, ms: seq<M>, k: nat, j: nat)
    requires j <= |ms|
  {
    || k == Boundary(w, ms, j)
    || (j < |ms| && w.marshal(ms[j]) != [] && k == Boundary(w, ms, j) + HEADER)
  }

  /** Frame boundaries grow strictly, so `FirstIncomplete` picks one frame. */
  lemma FirstIncompleteUnique<M>(w: Wire<M>, ms: seq<M>, k: nat, i: nat, j: nat)
    requires FirstIncomplete(w, ms, k, i) && FirstIncomplete(w, ms, k, j)
    ensures i == j
  {
    if i < j {
      BoundaryMonotone(w, ms, i + 1, j);
    } else if j < i {
      BoundaryMonotone(w, ms, j + 1, i);
    }
  }

  lemma BoundaryMonotone<M>(w: Wire<M>, ms: seq<M>, i: nat, j: nat)
    requires i <= j <= |ms|
    ensures Boundary(w, ms, i) <= Boundary(w, ms, j)
  {
    assert ms[..j] == ms[..i] + ms[i..j];
    EncodeAllAppend(w, ms[..i], ms[i..j]);
  }

  lemma DecodeFront<M(!new)>(w: Wire<M>, m: M, rest: Bytes)
    requires Lawful(w) && Sized(w, m)
    ensures DecodeAll(w, EncodeRaw(w.marshal(m)) + rest) ==
            Decoded([m] + DecodeAll(w, rest).messages, DecodeAll(w, rest).err)
  {
    RawOfFrame(w.marshal(m), rest);
  }

  lemma DecodeCutFront<M(!new)>(w: Wire<M>, m: M, k: nat)
    requires Lawful(w) && Sized(w, m) && k < |EncodeRaw(w.marshal(m))|
    ensures DecodeAll(w, EncodeRaw(w.marshal(m))[..k]) ==
            Decoded([], if k == 0 || k == HEADER then None else Some(UnexpectedEof))
  {
    RawOfCutFrame(w.marshal(m), k);
  }

  /** Dropping the first message moves every cut by the length of its frame. */
  lemma CutShift<M>(w: Wire<M>, ms: seq<M>, k: nat, i: nat)
    requires ms != [] && i < |ms| && k >= |EncodeRaw(w.marshal(ms[0]))|
    ensures var n := |EncodeRaw(w.marshal(ms[0]))|;
            && FirstIncomplete(w, ms, k, i + 1) == FirstIncomplete(w, ms[1..], k - n, i)
            && SilentCut(w, ms, k, i + 1) == SilentCut(w, ms[1..], k - n, i)
  {
    BoundaryShift(w, ms, i + 1);
    if i + 1 < |ms| {
      BoundaryShift(w, ms, i + 2);
    }
  }

  /** Decoding the first `k` bytes gives the messages before `j`, frame `j` being the
      first that is not complete, and an error unless the cut is a silent one. */
  predicate DecodesTo<M(==)>(w: Wire<M>, ms: seq<M>, k: nat, j: nat)
    requires k <= |EncodeAll(w, ms)|
  {
    var d := DecodeAll(w, EncodeAll(w, ms)[..k]);
    && FirstIncomplete(w, ms, k, j)
    && d.messages == ms[..j]
    && (d.err.None? <==> SilentCut(w, ms, k, j))
  }

  lemma CutInFirst<M(!new)>(w: Wire<M>, ms: seq<M>, k: nat)
    requires Lawful(w) && ms != [] && Sized(w, ms[0]) && k < |EncodeRaw(w.marshal(ms[0]))|
    requires k <= |EncodeAll(w, ms)|
    ensures DecodesTo(w, ms, k, 0)
  {
    var frame := EncodeRaw(w.marshal(ms[0]));
    BoundaryShift(w, ms, 1);
    assert EncodeAll(w, ms)[..k] == frame[..k];
    DecodeCutFront(w, ms[0], k);
  }

  lemma CutLater<M(!new)>(w: Wire<M>, ms: seq<M>, k: nat, i: nat)
    requires Lawful(w) && ms != [] && Sized(w, ms[0])
    requires |EncodeRaw(w.marshal(ms[0]))| <= k <= |EncodeAll(w, ms)|
    requires DecodesTo(w, ms[1..], k - |EncodeRaw(w.marshal(ms[0]))|, i)
    ensures DecodesTo(w, ms, k, i + 1)
  {
    DecodeLater(w, ms, k);
    assert ms[..i + 1] == [ms[0]] + ms[1..][..i];
    CutShift(w, ms, k, i);
  }

  lemma DecodeLater<M(!new)>(w: Wire<M>, ms: seq<M>, k: nat)
    requires Lawful(w) && ms != [] && Sized(w, ms[0])
    requires |EncodeRaw(w.marshal(ms[0]))| <= k <= |EncodeAll(w, ms)|
    ensures var d := DecodeAll(w, EncodeAll(w, ms[1..])[..k - |EncodeRaw(w.marshal(ms[0]))|]);
            DecodeAll(w, EncodeAll(w, ms)[..k]) == Decoded([ms[0]] + d.messages, d.err)
  {
    var frame, rest := EncodeRaw(w.marshal(ms[0])), EncodeAll(w, ms[1..]);
    CutAfterFrame(frame, rest, k);
    DecodeFront(w, ms[0], rest[..k - |frame|]);
  }

  lemma CutAfterFrame(frame: Bytes, rest: Bytes, k: nat)
    requires |frame| <= k <= |frame| + |rest|
    ensures (frame + rest)[..k] == frame + rest[..k - |frame|]
  {
  }

  /** Decoding any byte prefix of an encoding gives exactly the messages whose frames
      lie in it, and reports an error unless the cut is a silent one. */
  lemma {:induction false} DecodeAnyCut<M(!new)>(w: Wire<M>, ms: seq<M>, k: nat) returns (j: nat)
    requires Lawful(w) && AllSized(w, ms) && k <= |EncodeAll(w, ms)|
    ensures DecodesTo(w, ms, k, j)
    decreases |ms|
  {
    if ms == [] {
      j := 0;
    } else if k < |EncodeRaw(w.marshal(ms[0]))| {
      CutInFirst(w, ms, k);
      j := 0;
    } else {
      var i := DecodeAnyCut(w, ms[1..], k - |EncodeRaw(w.marshal(ms[0]))|);
      CutLater(w, ms, k, i);
      j := i + 1;
    }
  }

  /** Nothing is lost or added when the whole encoding is there. */
  lemma DecodeRoundTrip<M(!new)>(w: Wire<M>, ms: seq<M>)
    requires Lawful(w) && AllSized(w, ms)
    ensures DecodeAll(w, EncodeAll(w, ms)) == Decoded(ms, None)
  {
    var all := EncodeAll(w, ms);
    var j := DecodeAnyCut(w, ms, |all|);
    assert all[..|all|] == all;
    assert ms[..|ms|] == ms;
    FirstIncompleteUnique(w, ms, |all|, j, |ms|);
  }

  // ---------------------------------------------------------------------------
  // What the bytes tell

  function Payloads<M>(w: Wire<M>, ms: seq<M>): (p: seq<Bytes>)
    ensures |p| == |ms| && forall i :: 0 <= i < |ms| ==> p[i] == w.marshal(ms[i])
  {
    seq(|ms|, i requires 0 <= i < |ms| => w.marshal(ms[i]))
  }

  /** Bytes framed as they are. */
  const PLAIN: Wire<Bytes> := Wire((b: Bytes) => b, (b: Bytes) => Some(b), [], (b: Bytes) => true)

  lemma {:induction false} FramesOfPayloads<M>(w: Wire<M>, ms: seq<M>)
    ensures EncodeAll(w, ms) == EncodeAll(PLAIN, Payloads(w, ms))
  {
    if ms != [] {
      FramesOfPayloads(w, ms[1..]);
      assert Payloads(w, ms)[1..] == Payloads(w, ms[1..]);
    }
  }

  /** Two encodings are the same bytes exactly when they frame the same payloads. */
  lemma SameFrames<M, N>(v: Wire<M>, a: seq<M>, w: Wire<N>, b: seq<N>)
    requires AllSized(v, a) && AllSized(w, b)
    ensures EncodeAll(v, a) == EncodeAll(w, b) <==> Payloads(v, a) == Payloads(w, b)
  {
    FramesOfPayloads(v, a);
    FramesOfPayloads(w, b);
    assert forall i :: 0 <= i < |a| ==> Sized(v, a[i]);
    assert forall i :: 0 <= i < |b| ==> Sized(w, b[i]);
    DecodeRoundTrip(PLAIN, Payloads(v, a));
    DecodeRoundTrip(PLAIN, Payloads(w, b));
  }

  // ---------------------------------------------------------------------------
  // Readers and writers

  /** An `io.Reader` over bytes not read yet. */
  class Reader {
    var rest: Bytes

    constructor (data: Bytes)
      ensures rest == data
    {
      rest := data;
    }

    method ReadFull(n: nat) returns (buf: Bytes, err: Option<IoError>)
      modifies this
      ensures match ReadFullAt(old(rest), n)
              case Frame(payload, tail) => err == None && buf == payload && rest == tail
              case Stop(e) => err == Some(e) && rest == []
    {
      if n <= |rest| {
        buf, err := rest[..n], None;
        rest := rest[n..];
      } else {
        buf := rest;
        err := Some(if rest == [] then Eof else UnexpectedEof);
        rest := [];
      }
    }
  }

  /** `decodeRaw`. */
  method DecodeRaw(src: Reader) returns (buf: Bytes, err: Option<IoError>)
    modifies src
    ensures match RawAt(old(src.rest))
            case Frame(payload, tail) => err == None && buf == payload && src.rest == tail
            case Stop(e) => err == Some(e)
  {
    buf, err := src.ReadFull(HEADER);
    if err.Some? {
      return;
    }
    var length := FromLittleEndian(buf);
    buf, err := src.ReadFull(length);
  }

  /** `DecodeEvery`: reads messages until the reader gives an error. */
  method DecodeEvery<M>(w: Wire<M>, src: Reader) returns (messages: seq<M>, err: Option<IoError>)
    modifies src
    ensures Decoded(messages, err) == DecodeAll(w, old(src.rest))
  {
    messages := [];
    while true
      invariant DecodeAll(w, old(src.rest)) ==
                Decoded(messages + DecodeAll(w, src.rest).messages, DecodeAll(w, src.rest).err)
      decreases |src.rest|
    {
      ghost var front := src.rest;
      var buf, e := DecodeRaw(src);
      if e.Some? {
        assert messages + [] == messages;
        return messages, if e.value == Eof then None else e;
      }
      match w.unmarshal(buf) {
        case None =>
          assert messages + [] == messages;
          return messages, Some(Malformed);
        case Some(m) =>
          assert messages + DecodeAll(w, front).messages == (messages + [m]) + DecodeAll(w, src.rest).messages;
          messages := messages + [m];
      }
    }
  }
}
