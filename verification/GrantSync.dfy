/** Anti-entropy of grants between agents (notary/sync.go, daemons/notary.sync.go). */
module GrantSync {
  import opened Base
  import opened Grants

  // ---------------------------------------------------------------------------
  // The server's stream

  const BATCH: nat := 100
  const BUFFER: nat := 200

  function Concat<T>(batches: seq<seq<T>>): seq<T> {
    if batches == [] then [] else Concat(batches[..|batches| - 1]) + batches[|batches| - 1]
  }

  lemma ConcatAppend<T>(batches: seq<seq<T>>, batch: seq<T>)
    ensures Concat(batches + [batch]) == Concat(batches) + batch
  {
    assert (batches + [batch])[..|batches|] == batches;
  }

  /** `Stream`. `produced` is what the storage puts on its channel and `fails` whether
      it then reports an error, which can be seen before the channel is drained;
      `delivers` tells which sends succeed. A stream that ends well has sent exactly
      what was produced, in full batches but for the last; one that does not has sent
      a part from the front of it, and if every send succeeded no more than what the
      channel holds is missing. */
  method StreamGrants(produced: seq<Grant>, fails: bool, delivers: nat -> bool)
      returns (batches: seq<seq<Grant>>, ok: bool)
    ensures forall i :: 0 <= i < |batches| ==> |batches[i]| <= 100 && (i + 1 < |batches| ==> |batches[i]| == 100)
    ensures Concat(batches) <= produced
    ensures ok ==> Concat(batches) == produced && !fails
    ensures (forall n :: delivers(n)) && !fails ==> ok
    ensures (forall n :: delivers(n)) ==> |produced| - |Concat(batches)| <= 200
  {
    batches := [];
    var batch: seq<Grant> := [];
    var taken, reported := 0, false;
    while true
      invariant taken <= |produced| && (reported ==> !fails)
      invariant Concat(batches) + batch == produced[..taken]
      invariant |batch| < BATCH
      invariant forall i :: 0 <= i < |batches| ==> |batches[i]| == BATCH
      decreases |produced| - taken, if reported then 0 else 1
    {
      ConcatAppend(batches, batch);
      if
      case taken < |produced| =>
        var fuller := batch + [produced[taken]];
        assert produced[..taken + 1] == produced[..taken] + [produced[taken]];
        assert Concat(batches) + fuller == produced[..taken + 1];
        taken := taken + 1;
        if |fuller| < BATCH {
          batch := fuller;
        } else {
          ConcatAppend(batches, fuller);
          if !delivers(|batches|) {
            return batches, false;
          }
          batches, batch := batches + [fuller], [];
          assert Concat(batches) + [] == Concat(batches);
        }
      case !reported && |produced| - taken <= BUFFER =>
        if fails {
          if delivers(|batches|) {
            batches := batches + [batch];
          }
          return batches, false;
        }
        reported := true;
      case reported && taken == |produced| =>
        assert produced[..taken] == produced;
        if !delivers(|batches|) {
          return batches, false;
        }
        return batches + [batch], true;
    }
  }

  // ---------------------------------------------------------------------------
  // The client's side

  /** What receiving grants one by one does to the primary storage and the filter. */
  datatype Held = Held(store: map<string, Grant>, bits: Bits)

  function Receive(h: Hash, d: Digest, held: Held, gs: seq<Grant>): Held {
    if gs == [] then held
    else
      var before := Receive(h, d, held, gs[..|gs| - 1]);
      var g := gs[|gs| - 1];
      Held(Inserted(d, before.store, g), Add(h, before.bits, EnsureDefaults(d, g).fingerprint))
  }

  lemma {:induction false} ReceiveAppend(h: Hash, d: Digest, held: Held, a: seq<Grant>, b: seq<Grant>)
    ensures Receive(h, d, held, a + b) == Receive(h, d, Receive(h, d, held, a), b)
  {
    if b == [] {
      assert a + b == a;
    } else {
      ReceiveAppend(h, d, held, a, b[..|b| - 1]);
      assert (a + b)[..|a + b| - 1] == a + b[..|b| - 1];
    }
  }

  /** One chunk; `stores` tells which insertions succeed. */
  method SyncChunk(d: Digest, chunk: seq<Grant>, b: Bloom, s: Memory, stores: nat -> bool)
      returns (ok: bool, ghost n: nat)
    modifies b, s
    ensures n <= |chunk|
    ensures Held(s.mem, b.bits) == Receive(b.hash, d, Held(old(s.mem), old(b.bits)), chunk[..n])
    ensures ok ==> n == |chunk|
    ensures (forall k :: stores(k)) ==> ok
  {
    n := 0;
    for j := 0 to |chunk|
      invariant n == j
      invariant Held(s.mem, b.bits) == Receive(b.hash, d, Held(old(s.mem), old(b.bits)), chunk[..n])
    {
      assert chunk[..n + 1][..n] == chunk[..n];
      if !stores(j) {
        return false, n;
      }
      var g := s.Insert(d, chunk[j]);
      b.AddKey(g.fingerprint);
      n := n + 1;
    }
    ok := true;
  }

  /** `Sync`: stores what arrives and adds it to the filter; the first insertion that
      fails ends it. */
  method Sync(d: Digest, batches: seq<seq<Grant>>, b: Bloom, s: Memory, stores: nat -> nat -> bool)
      returns (ok: bool, ghost n: nat)
    modifies b, s
    ensures n <= |Concat(batches)|
    ensures Held(s.mem, b.bits) == Receive(b.hash, d, Held(old(s.mem), old(b.bits)), Concat(batches)[..n])
    ensures ok ==> n == |Concat(batches)|
    ensures (forall i, k :: stores(i)(k)) ==> ok
  {
    ghost var held, all := Held(s.mem, b.bits), Concat(batches);
    for i := 0 to |batches|
      invariant Held(s.mem, b.bits) == Receive(b.hash, d, held, Concat(batches[..i]))
    {
      ghost var done := Concat(batches[..i]);
      assert batches[..i + 1][..i] == batches[..i];
      assert Concat(batches[..i + 1]) == done + batches[i];
      ghost var m;
      ok, m := SyncChunk(d, batches[i], b, s, stores(i));
      ReceiveAppend(b.hash, d, held, done, batches[i][..m]);
      if !ok {
        ConcatPrefix(batches, i + 1);
        n := |done| + m;
        assert all[..n] == done + batches[i][..m];
        return;
      }
      assert batches[i][..m] == batches[i];
    }
    assert batches[..|batches|] == batches;
    ok, n := true, |all|;
    assert all[..n] == all;
  }

  lemma {:induction false} ConcatPrefix<T>(batches: seq<seq<T>>, i: nat)
    requires i <= |batches|
    ensures Concat(batches[..i]) <= Concat(batches)
  {
    if i < |batches| {
      var n := |batches| - 1;
      ConcatPrefix(batches[..n], i);
      assert batches[..n][..i] == batches[..i];
    } else {
      assert batches[..i] == batches;
    }
  }

  /** A request to a peer from end to end: what is stored is a part, from the front,
      of what the peer's storages produced, and all of it when both sides end well. */
  method SyncPeer(d: Digest, produced: seq<Grant>, fails: bool, delivers: nat -> bool,
                  b: Bloom, s: Memory, stores: nat -> nat -> bool)
      returns (ok: bool, ghost n: nat)
    modifies b, s
    ensures n <= |produced|
    ensures Held(s.mem, b.bits) == Receive(b.hash, d, Held(old(s.mem), old(b.bits)), produced[..n])
    ensures ok ==> n == |produced| && !fails
    ensures !fails && (forall i :: delivers(i)) && (forall i, k :: stores(i)(k)) ==> ok
  {
    var batches, sent := StreamGrants(produced, fails, delivers);
    var stored;
    stored, n := Sync(d, batches, b, s, stores);
    assert Concat(batches)[..n] == produced[..n];
    ok := sent && stored;
  }

  // ---------------------------------------------------------------------------
  // One peer

  function Fps(gs: seq<Grant>): set<string> {
    set g | g in gs :: g.fingerprint
  }

  lemma FpsAppend(gs: seq<Grant>, g: Grant)
    ensures Fps(gs + [g]) == Fps(gs) + {g.fingerprint}
  {
    assert forall x :: x in gs + [g] <==> x in gs || x == g;
  }

  /** Receiving touches the received fingerprints only, and the filter only grows. */
  lemma {:induction false} ReceiveFrame(h: Hash, d: Digest, held: Held, gs: seq<Grant>)
    requires forall g :: g in gs ==> HasDefaults(g)
    ensures var after := Receive(h, d, held, gs);
            && after.store.Keys == held.store.Keys + Fps(gs)
            && (forall k :: k in held.store && k !in Fps(gs) ==> after.store[k] == held.store[k])
            && held.bits <= after.bits
            && Covers(h, after.bits, Fps(gs))
  {
    if gs != [] {
      var front, g := gs[..|gs| - 1], gs[|gs| - 1];
      assert gs == front + [g];
      ReceiveFrame(h, d, held, front);
      FpsAppend(front, g);
    }
  }

  /** Grants with distinct fingerprints are stored as they were sent. */
  lemma {:induction false} ReceiveStores(h: Hash, d: Digest, held: Held, gs: seq<Grant>)
    requires (forall g :: g in gs ==> HasDefaults(g)) && DistinctFps(gs)
    ensures var after := Receive(h, d, held, gs);
            forall g :: g in gs ==> g.fingerprint in after.store && after.store[g.fingerprint] == g
  {
    if gs != [] {
      var front, g := gs[..|gs| - 1], gs[|gs| - 1];
      assert gs == front + [g];
      ReceiveStores(h, d, held, front);
      forall x | x in front
        ensures x.fingerprint != g.fingerprint
      {
        var i :| 0 <= i < |front| && front[i] == x;
        assert gs[i] == x;
      }
    }
  }

  // ---------------------------------------------------------------------------
  // A peer with several storages

  /** A request to one peer: its storages, primary first, what each produced for the
      filter in the request, and how many grants were stored before the stream ended. */
  datatype Visit = Visit(server: seq<map<string, Grant>>, parts: seq<seq<Grant>>, stored: nat)

  /** Each storage sends only grants of its own that the filter does not match. */
  ghost predicate Honest(h: Hash, bits: Bits, v: Visit) {
    && |v.parts| == |v.server|
    && v.stored <= |Concat(v.parts)|
    && forall i :: 0 <= i < |v.server| ==> Consistent(v.server[i]) && Offers(h, bits, v.server[i], v.parts[i])
  }

  /** Every storage was enumerated to its end and everything was stored. */
  ghost predicate Complete(h: Hash, bits: Bits, v: Visit) {
    && Honest(h, bits, v)
    && v.stored == |Concat(v.parts)|
    && forall i :: 0 <= i < |v.server| ==> Produces(h, bits, v.server[i], v.parts[i])
  }

  function Visited(h: Hash, d: Digest, held: Held, v: Visit): Held
    requires v.stored <= |Concat(v.parts)|
  {
    Receive(h, d, held, Concat(v.parts)[..v.stored])
  }

  predicate SameAt(a: map<string, Grant>, b: map<string, Grant>, k: string) {
    (k in a <==> k in b) && (k in a ==> a[k] == b[k])
  }

  /** The filter only grows and goes on covering the storage, and what it matched at
      first is stored as it was. */
  ghost predicate Kept(h: Hash, a: Held, b: Held) {
    && a.bits <= b.bits
    && (forall fp :: Test(h, a.bits, fp) ==> SameAt(a.store, b.store, fp))
    && (Covers(h, a.bits, a.store.Keys) ==> Covers(h, b.bits, b.store.Keys))
  }

  lemma KeptTransitive(h: Hash, a: Held, b: Held, c: Held)
    requires Kept(h, a, b) && Kept(h, b, c)
    ensures Kept(h, a, c)
  {
    forall fp | Test(h, a.bits, fp)
      ensures SameAt(a.store, c.store, fp)
    {
      assert Test(h, b.bits, fp);
      assert SameAt(a.store, b.store, fp) && SameAt(b.store, c.store, fp);
    }
  }

  lemma {:induction false} SentByStorage<T>(parts: seq<seq<T>>, g: T) returns (i: nat)
    requires g in Concat(parts)
    ensures i < |parts| && g in parts[i]
  {
    var n := |parts| - 1;
    if g in parts[n] {
      i := n;
    } else {
      i := SentByStorage(parts[..n], g);
    }
  }

  lemma SentAreUnmatched(h: Hash, bits: Bits, v: Visit)
    requires Honest(h, bits, v)
    ensures forall g :: g in Concat(v.parts) ==> HasDefaults(g) && !Test(h, bits, g.fingerprint)
  {
    forall g | g in Concat(v.parts)
      ensures HasDefaults(g) && !Test(h, bits, g.fingerprint)
    {
      var i := SentByStorage(v.parts, g);
      assert Offers(h, bits, v.server[i], v.parts[i]);
    }
  }

  /** A visit, complete or not, leaves alone what the filter matched when it began. */
  lemma VisitKeeps(h: Hash, d: Digest, held: Held, v: Visit)
    requires Honest(h, held.bits, v)
    ensures Kept(h, held, Visited(h, d, held, v))
  {
    SentAreUnmatched(h, held.bits, v);
    ReceiveFrame(h, d, held, Concat(v.parts)[..v.stored]);
  }

  /** The last storage that has a fingerprint decides. */
  function LastHolder(server: seq<map<string, Grant>>, k: string): Option<Grant> {
    if server == [] then None
    else
      var last := server[|server| - 1];
      if k in last then Some(last[k]) else LastHolder(server[..|server| - 1], k)
  }

  /** A grant is stored and the filter matches it. */
  predicate Has(h: Hash, held: Held, k: string, g: Grant) {
    k in held.store && held.store[k] == g && Test(h, held.bits, k)
  }

  lemma KeptHas(h: Hash, a: Held, b: Held, k: string, g: Grant)
    requires Kept(h, a, b) && Has(h, a, k, g)
    ensures Has(h, b, k, g)
  {
    assert SameAt(a.store, b.store, k);
  }

  lemma {:induction false} PartsArrive(h: Hash, d: Digest, held: Held, bits: Bits, server: seq<map<string, Grant>>,
                                       parts: seq<seq<Grant>>, k: string)
    requires |parts| == |server| && !Test(h, bits, k) && LastHolder(server, k).Some?
    requires forall i :: 0 <= i < |server| ==> Consistent(server[i]) && Produces(h, bits, server[i], parts[i])
    ensures Has(h, Receive(h, d, held, Concat(parts)), k, LastHolder(server, k).value)
    decreases |server|
  {
    var n := |server| - 1;
    var store, part := server[n], parts[n];
    var before := Receive(h, d, held, Concat(parts[..n]));
    ReceiveAppend(h, d, held, Concat(parts[..n]), part);
    ReceiveFrame(h, d, before, part);
    if k in store {
      ReceiveStores(h, d, before, part);
      assert store[k] in part && k in Fps(part);
    } else {
      PartsArrive(h, d, held, bits, server[..n], parts[..n], k);
      assert k !in Fps(part);
    }
  }

  /** A complete visit brings every grant the filter did not match; where several
      storages of the peer have a fingerprint, the last one's grant. */
  lemma VisitBrings(h: Hash, d: Digest, held: Held, v: Visit, k: string)
    requires Complete(h, held.bits, v) && !Test(h, held.bits, k) && LastHolder(v.server, k).Some?
    ensures Has(h, Visited(h, d, held, v), k, LastHolder(v.server, k).value)
  {
    assert Concat(v.parts)[..v.stored] == Concat(v.parts);
    PartsArrive(h, d, held, held.bits, v.server, v.parts, k);
  }

  lemma {:induction false} NoHolder(server: seq<map<string, Grant>>, k: string)
    requires LastHolder(server, k).None?
    ensures forall i :: 0 <= i < |server| ==> k !in server[i]
  {
    if server != [] {
      NoHolder(server[..|server| - 1], k);
      assert forall i :: 0 <= i < |server| - 1 ==> server[i] == server[..|server| - 1][i];
    }
  }

  lemma NotSent(h: Hash, bits: Bits, v: Visit, k: string)
    requires Honest(h, bits, v) && LastHolder(v.server, k).None?
    ensures k !in Fps(Concat(v.parts))
  {
    NoHolder(v.server, k);
    forall g | g in Concat(v.parts)
      ensures g.fingerprint != k
    {
      var i := SentByStorage(v.parts, g);
      assert Offers(h, bits, v.server[i], v.parts[i]);
    }
  }

  /** What every fingerprint looks up after a complete visit: what the peer sent last for
      it, if the filter did not match it and the peer could enumerate it; what it looked
      up before otherwise. */
  lemma VisitDecides(h: Hash, d: Digest, c: Composite, bits: Bits, v: Visit, k: string)
    requires Complete(h, bits, v)
    ensures Lookup(Composite(Visited(h, d, Held(c.primary, bits), v).store, c.buckets), k) ==
            if !Test(h, bits, k) && LastHolder(v.server, k).Some? then LastHolder(v.server, k) else Lookup(c, k)
  {
    var held := Held(c.primary, bits);
    if Test(h, bits, k) {
      VisitKeeps(h, d, held, v);
      assert SameAt(c.primary, Visited(h, d, held, v).store, k);
    } else if LastHolder(v.server, k).Some? {
      VisitBrings(h, d, held, v, k);
    } else {
      SentAreUnmatched(h, bits, v);
      NotSent(h, bits, v, k);
      assert Concat(v.parts)[..v.stored] == Concat(v.parts);
      ReceiveFrame(h, d, held, Concat(v.parts));
    }
  }

  /** The storages of a peer that can be enumerated, in the order they are. */
  function Enumerated(buckets: seq<Bucket>): seq<map<string, Grant>> {
    if buckets == [] then []
    else (if buckets[0].enumerable then [buckets[0].grants] else []) + Enumerated(buckets[1..])
  }

  function Storages(c: Composite): seq<map<string, Grant>> {
    [c.primary] + Enumerated(c.buckets)
  }

  lemma {:induction false} EnumeratedHolds(buckets: seq<Bucket>, k: string)
    ensures (exists g :: g in Enumerated(buckets) && k in g) <==>
            exists i :: 0 <= i < |buckets| && buckets[i].enumerable && k in buckets[i].grants
  {
    if buckets != [] {
      var rest := buckets[1..];
      EnumeratedHolds(rest, k);
      assert forall i :: 0 <= i < |rest| ==> rest[i] == buckets[i + 1];
      if i :| 0 <= i < |buckets| && buckets[i].enumerable && k in buckets[i].grants {
        assert i > 0 ==> buckets[i] == rest[i - 1];
        assert i == 0 ==> buckets[0].grants in Enumerated(buckets);
      }
    }
  }

  lemma {:induction false} SomeHolder(server: seq<map<string, Grant>>, k: string)
    ensures LastHolder(server, k).Some? <==> exists g :: g in server && k in g
  {
    if server != [] {
      var front, last := server[..|server| - 1], server[|server| - 1];
      SomeHolder(front, k);
      assert server == front + [last];
    }
  }

  /** What a peer sends for a fingerprint is what its own filter goes through. */
  lemma SendsWhatIsEnumerated(c: Composite, k: string)
    ensures LastHolder(Storages(c), k).Some? <==> k in Fingerprints(c)
  {
    SomeHolder(Storages(c), k);
    EnumeratedHolds(c.buckets, k);
  }

  /** The peer itself looks a fingerprint up in the first of its storages that has it, so
      after a complete visit the two agree on a fingerprint the peer has sent exactly when
      the last storage it enumerates agrees with the first it looks up; on the others,
      exactly when they agreed before. */
  lemma AgreesWithPeerIff(h: Hash, d: Digest, c: Composite, bits: Bits, peer: Composite, v: Visit, k: string)
    requires Complete(h, bits, v) && v.server == Storages(peer)
    ensures var mine := Composite(Visited(h, d, Held(c.primary, bits), v).store, c.buckets);
            var last := LastHolder(Storages(peer), k);
            Lookup(mine, k) == Lookup(peer, k) <==>
            (if Test(h, bits, k) || last.None? then Lookup(c, k) else last) == Lookup(peer, k)
  {
    VisitDecides(h, d, c, bits, v, k);
  }

  /** They do disagree on a fingerprint for which the peer has two different grants. */
  lemma PeerDisagrees(h: Hash, d: Digest, mine: Composite, bits: Bits, a: Grant, b: Grant)
    requires HasDefaults(a) && HasDefaults(b) && a.fingerprint == b.fingerprint && a != b
    requires !Test(h, bits, a.fingerprint)
    ensures var peer := Composite(map[a.fingerprint := a], [Bucket(map[b.fingerprint := b], true)]);
            var v := Visit(Storages(peer), [[a], [b]], 2);
            && Complete(h, bits, v)
            && Lookup(Composite(Visited(h, d, Held(mine.primary, bits), v).store, mine.buckets), a.fingerprint)
               != Lookup(peer, a.fingerprint)
  {
    var peer := Composite(map[a.fingerprint := a], [Bucket(map[b.fingerprint := b], true)]);
    var k, v := a.fingerprint, Visit(Storages(peer), [[a], [b]], 2);
    assert peer.buckets[1..] == [];
    assert Enumerated(peer.buckets) == [peer.buckets[0].grants] + Enumerated(peer.buckets[1..])
                                    == [peer.buckets[0].grants] + [];
    assert v.server == [peer.primary] + [peer.buckets[0].grants];
    assert v.server[..1] == [peer.primary];
    assert [[a], [b]][..1] == [[a]] && [[a]][..0] == [];
    assert Concat([[a]]) == [] + [a];
    assert Concat(v.parts) == Concat([[a]]) + [b] == [a, b];
    assert Produces(h, bits, v.server[0], v.parts[0]) && Produces(h, bits, v.server[1], v.parts[1]);
    AgreesWithPeerIff(h, d, mine, bits, peer, v, k);
  }

  /** How things go on the way: when a storage of the peer is interrupted, which sends of
      the peer succeed, which insertions here do. A peer that cannot be reached is one of
      which no send succeeds. */
  datatype Conditions = Conditions(patience: nat -> Option<nat>, delivers: nat -> bool, stores: nat -> nat -> bool)

  /** `syncpeer`, with the peer's side of it: enumeration, stream and storing together are
      a visit, and a complete one if it ends well. */
  method VisitPeer(d: Digest, server: seq<map<string, Grant>>, how: Conditions, b: Bloom, s: Memory)
      returns (ok: bool, ghost v: Visit)
    requires forall i :: 0 <= i < |server| ==> Consistent(server[i])
    modifies b, s
    ensures v.server == server && Honest(b.hash, old(b.bits), v)
    ensures Held(s.mem, b.bits) == Visited(b.hash, d, Held(old(s.mem), old(b.bits)), v)
    ensures ok ==> Complete(b.hash, old(b.bits), v)
    ensures (forall i :: how.patience(i).None? && how.delivers(i)) && (forall i, k :: how.stores(i)(k)) ==> ok
  {
    var parts, enumerated := SyncAll(server, b.hash, b.bits, how.patience);
    ghost var n;
    ok, n := SyncPeer(d, Concat(parts), !enumerated, how.delivers, b, s, how.stores);
    v := Visit(server, parts, n);
  }

  // ---------------------------------------------------------------------------
  // The loop over the peers

  /** Each request carries the filter as it is then. */
  ghost predicate Legal(h: Hash, d: Digest, held: Held, visits: seq<Visit>)
    decreases |visits|, 0
  {
    visits == [] ||
    (var front, v := visits[..|visits| - 1], visits[|visits| - 1];
     Legal(h, d, held, front) && Honest(h, After(h, d, held, front).bits, v))
  }

  ghost function After(h: Hash, d: Digest, held: Held, visits: seq<Visit>): Held
    requires Legal(h, d, held, visits)
    decreases |visits|, 1
  {
    if visits == [] then held
    else Visited(h, d, After(h, d, held, visits[..|visits| - 1]), visits[|visits| - 1])
  }

  /** Over the whole loop, whichever streams break off: a fingerprint the filter
      matched at the beginning keeps what the primary had for it, and the filter goes
      on covering the primary. */
  lemma {:induction false} LoopKeeps(h: Hash, d: Digest, held: Held, visits: seq<Visit>)
    requires Legal(h, d, held, visits)
    ensures Kept(h, held, After(h, d, held, visits))
  {
    if visits != [] {
      var front, v := visits[..|visits| - 1], visits[|visits| - 1];
      LoopKeeps(h, d, held, front);
      VisitKeeps(h, d, After(h, d, held, front), v);
      KeptTransitive(h, held, After(h, d, held, front), After(h, d, held, visits));
    }
  }

  lemma {:induction false} LoopSplits(h: Hash, d: Digest, held: Held, a: seq<Visit>, b: seq<Visit>)
    requires Legal(h, d, held, a + b)
    ensures Legal(h, d, held, a) && Legal(h, d, After(h, d, held, a), b)
    ensures After(h, d, held, a + b) == After(h, d, After(h, d, held, a), b)
  {
    if b == [] {
      assert a + b == a;
    } else {
      assert (a + b)[..|a + b| - 1] == a + b[..|b| - 1];
      LoopSplits(h, d, held, a, b[..|b| - 1]);
    }
  }

  /** And each grant of each peer whose stream completed was either matched by the
      filter in the request to that peer, or is in the primary at the end as that
      peer sent it last. */
  lemma LoopBrings(h: Hash, d: Digest, held: Held, before: seq<Visit>, v: Visit, later: seq<Visit>, k: string)
    requires Legal(h, d, held, before + [v] + later)
    requires Legal(h, d, held, before) && Complete(h, After(h, d, held, before).bits, v)
    requires LastHolder(v.server, k).Some?
    ensures Test(h, After(h, d, held, before).bits, k) ||
            Has(h, After(h, d, held, before + [v] + later), k, LastHolder(v.server, k).value)
  {
    var at := After(h, d, held, before);
    if !Test(h, at.bits, k) {
      LoopSplits(h, d, held, before + [v], later);
      LoopSplits(h, d, held, before, [v]);
      OneVisit(h, d, at, v);
      VisitBrings(h, d, at, v, k);
      LoopKeeps(h, d, Visited(h, d, at, v), later);
      KeptHas(h, Visited(h, d, at, v), After(h, d, held, before + [v] + later), k, LastHolder(v.server, k).value);
    }
  }

  lemma AfterNext(h: Hash, d: Digest, held: Held, visits: seq<Visit>, v: Visit)
    requires Legal(h, d, held, visits) && Honest(h, After(h, d, held, visits).bits, v)
    ensures Legal(h, d, held, visits + [v])
    ensures After(h, d, held, visits + [v]) == Visited(h, d, After(h, d, held, visits), v)
  {
    assert (visits + [v])[..|visits|] == visits;
  }

  /** The visits of a loop over peers, and which of them ended well. */
  ghost predicate IsLoop(h: Hash, d: Digest, held: Held, peers: seq<seq<map<string, Grant>>>, visits: seq<Visit>,
                         oks: seq<bool>)
  {
    && |visits| == |oks| <= |peers|
    && Legal(h, d, held, visits)
    && (forall i :: 0 <= i < |visits| ==> visits[i].server == peers[i])
    && forall i :: 0 <= i < |visits| && oks[i] ==>
         Legal(h, d, held, visits[..i]) && Complete(h, After(h, d, held, visits[..i]).bits, visits[i])
  }

  lemma LoopNext(h: Hash, d: Digest, held: Held, peers: seq<seq<map<string, Grant>>>, visits: seq<Visit>,
                 oks: seq<bool>, v: Visit, ok: bool)
    requires IsLoop(h, d, held, peers, visits, oks) && |visits| < |peers| && v.server == peers[|visits|]
    requires Honest(h, After(h, d, held, visits).bits, v)
    requires ok ==> Complete(h, After(h, d, held, visits).bits, v)
    ensures IsLoop(h, d, held, peers, visits + [v], oks + [ok])
  {
    AfterNext(h, d, held, visits, v);
    var all := visits + [v];
    forall i | 0 <= i < |all| && (oks + [ok])[i]
      ensures Legal(h, d, held, all[..i]) && Complete(h, After(h, d, held, all[..i]).bits, all[i])
    {
      if i < |visits| {
        assert all[..i] == visits[..i];
      } else {
        assert all[..i] == visits;
      }
    }
  }

  /** `SyncAuthorizations`: makes the filter and, unless that fails, visits every peer with
      it as it then is. What the storage ends up with is what those visits bring. */
  method SyncAuthorizations(d: Digest, s: Memory, buckets: seq<Bucket>, hash: Hash,
                            order: seq<string>, drops: nat -> bool, fails: bool,
                            peers: seq<seq<map<string, Grant>>>, how: nat -> Conditions)
      returns (b: Bloom, oks: seq<bool>, ghost bits: Bits, ghost visits: seq<Visit>)
    requires forall fp :: fp in order ==> fp in Fingerprints(Composite(s.mem, buckets))
    requires !fails ==> forall i :: 0 <= i < |order| ==> !drops(i)
    requires !fails ==> forall fp :: fp in Fingerprints(Composite(s.mem, buckets)) ==> fp in order
    requires forall i, j :: 0 <= i < |peers| && 0 <= j < |peers[i]| ==> Consistent(peers[i][j])
    modifies s
    ensures fails ==> s.mem == old(s.mem) && visits == []
    ensures !fails ==> Covers(hash, bits, Fingerprints(Composite(old(s.mem), buckets))) && |visits| == |peers|
    ensures IsLoop(hash, d, Held(old(s.mem), bits), peers, visits, oks)
    ensures Held(s.mem, b.bits) == After(hash, d, Held(old(s.mem), bits), visits)
  {
    var err;
    b, err := Bloomfilter(Composite(s.mem, buckets), hash, order, drops, fails);
    bits, oks, visits := b.bits, [], [];
    if err {
      return;
    }
    ghost var held := Held(s.mem, bits);
    for i := 0 to |peers|
      invariant b.hash == hash && |visits| == i
      invariant IsLoop(hash, d, held, peers, visits, oks)
      invariant Held(s.mem, b.bits) == After(hash, d, held, visits)
      modifies b, s
    {
      var ok;
      ghost var v;
      ok, v := VisitPeer(d, peers[i], how(i), b, s);
      AfterNext(hash, d, held, visits, v);
      LoopNext(hash, d, held, peers, visits, oks, v, ok);
      oks, visits := oks + [ok], visits + [v];
    }
  }

  /** So each fingerprint of each peer whose visit ended well was matched by the filter in
      the request to that peer, or is held at the end as that peer sent it last. */
  lemma LoopBringsEach(h: Hash, d: Digest, held: Held, peers: seq<seq<map<string, Grant>>>, visits: seq<Visit>,
                       oks: seq<bool>, i: nat, k: string)
    requires IsLoop(h, d, held, peers, visits, oks) && i < |visits| && oks[i] && LastHolder(peers[i], k).Some?
    ensures Legal(h, d, held, visits[..i])
    ensures Test(h, After(h, d, held, visits[..i]).bits, k) ||
            Has(h, After(h, d, held, visits), k, LastHolder(peers[i], k).value)
  {
    assert visits == visits[..i] + [visits[i]] + visits[i + 1..];
    LoopBrings(h, d, held, visits[..i], visits[i], visits[i + 1..], k);
  }

  // ---------------------------------------------------------------------------
  // What lookups see

  /** With a filter that covers the storages it was made from, every fingerprint of
      those storages looks up the same after the loop as before it. */
  lemma LookupsKept(h: Hash, d: Digest, c: Composite, bits: Bits, visits: seq<Visit>, fp: string)
    requires Covers(h, bits, Fingerprints(c)) && Legal(h, d, Held(c.primary, bits), visits)
    requires fp in Fingerprints(c)
    ensures Lookup(Composite(After(h, d, Held(c.primary, bits), visits).store, c.buckets), fp) == Lookup(c, fp)
  {
    LoopKeeps(h, d, Held(c.primary, bits), visits);
    assert SameAt(c.primary, After(h, d, Held(c.primary, bits), visits).store, fp);
  }

  /** A fingerprint held somewhere keeps its grant against every possible run of peers
      exactly when the filter matches it; a peer's grant would take the place of one
      the filter does not match. */
  lemma KeptIffMatched(h: Hash, d: Digest, c: Composite, bits: Bits, fp: string)
    requires fp != "" && Lookup(c, fp).Some?
    ensures (forall visits :: Legal(h, d, Held(c.primary, bits), visits) ==>
               Lookup(Composite(After(h, d, Held(c.primary, bits), visits).store, c.buckets), fp) == Lookup(c, fp))
            <==> Test(h, bits, fp)
  {
    var held := Held(c.primary, bits);
    if Test(h, bits, fp) {
      forall visits | Legal(h, d, held, visits)
        ensures Lookup(Composite(After(h, d, held, visits).store, c.buckets), fp) == Lookup(c, fp)
      {
        LoopKeeps(h, d, held, visits);
        assert SameAt(c.primary, After(h, d, held, visits).store, fp);
      }
    } else {
      var visits := Overriding(h, d, c, bits, fp);
    }
  }

  /** A peer with a single grant. */
  function Lone(g: Grant): Visit {
    Visit([map[g.fingerprint := g]], [[g]], 1)
  }

  lemma LoneIsComplete(h: Hash, bits: Bits, g: Grant)
    requires HasDefaults(g) && !Test(h, bits, g.fingerprint)
    ensures Complete(h, bits, Lone(g)) && LastHolder(Lone(g).server, g.fingerprint) == Some(g)
  {
    ConcatAppend<Grant>([], [g]);
    assert [] + [[g]] == [[g]] && [] + [g] == [g];
    assert Concat([[g]]) == [g];
  }

  lemma OneVisit(h: Hash, d: Digest, held: Held, v: Visit)
    requires Honest(h, held.bits, v)
    ensures Legal(h, d, held, [v]) && After(h, d, held, [v]) == Visited(h, d, held, v)
  {
    assert [v][..0] == [];
  }

  lemma Overriding(h: Hash, d: Digest, c: Composite, bits: Bits, fp: string) returns (visits: seq<Visit>)
    requires fp != "" && Lookup(c, fp).Some? && !Test(h, bits, fp)
    ensures Legal(h, d, Held(c.primary, bits), visits)
    ensures Lookup(Composite(After(h, d, Held(c.primary, bits), visits).store, c.buckets), fp) != Lookup(c, fp)
  {
    var mine := Lookup(c, fp).value;
    var g := Grant(fp, mine.authorization + [0], Some("full"));
    assert |g.authorization| != |mine.authorization|;
    LoneIsComplete(h, bits, g);
    OneVisit(h, d, Held(c.primary, bits), Lone(g));
    VisitBrings(h, d, Held(c.primary, bits), Lone(g), fp);
    visits := [Lone(g)];
  }
}
