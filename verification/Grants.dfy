/** Grant storage and the bloom filter over it (notary/memory.go, notary/composite.go,
    notary/grant.go). */
module Grants {
  import opened Base

  // ---------------------------------------------------------------------------
  // Bloom filters

  type Bits = set<nat>

  /** The positions a key sets; a filter matches the keys whose positions are all set. */
  type Hash = string -> set<nat>

  predicate Test(h: Hash, bits: Bits, k: string) {
    h(k) <= bits
  }

  function Add(h: Hash, bits: Bits, k: string): Bits {
    bits + h(k)
  }

  class Bloom {
    const hash: Hash
    var bits: Bits

    constructor (hash: Hash)
      ensures this.hash == hash && bits == {}
    {
      this.hash, bits := hash, {};
    }

    predicate Matches(k: string)
      reads this
    {
      Test(hash, bits, k)
    }

    /** What is matched stays matched. */
    method AddKey(k: string)
      modifies this
      ensures bits == Add(hash, old(bits), k)
      ensures Matches(k)
      ensures forall j :: old(Matches(j)) ==> Matches(j)
    {
      bits := bits + hash(k);
    }
  }

  // ---------------------------------------------------------------------------
  // Grants

  datatype Grant = Grant(fingerprint: string, authorization: Bytes, permission: Option<string>)

  type Digest = Bytes -> string

  function EnsureDefaults(d: Digest, g: Grant): Grant {
    Grant(if g.fingerprint == "" then d(g.authorization) else g.fingerprint, g.authorization,
          if g.permission.None? then Some("none") else g.permission)
  }

  predicate HasDefaults(g: Grant) {
    g.fingerprint != "" && g.permission.Some?
  }

  /** Grants are kept under their fingerprint, with their defaults filled in. */
  predicate Consistent(m: map<string, Grant>) {
    forall k :: k in m ==> m[k].fingerprint == k && HasDefaults(m[k])
  }

  function Inserted(d: Digest, m: map<string, Grant>, g: Grant): map<string, Grant> {
    var gd := EnsureDefaults(d, g);
    m[gd.fingerprint := gd]
  }

  class Memory {
    var mem: map<string, Grant>

    method Lookup(fingerprint: string) returns (g: Option<Grant>)
      ensures g == if fingerprint in mem then Some(mem[fingerprint]) else None
    {
      if fingerprint !in mem {
        return None;
      }
      g := Some(mem[fingerprint]);
    }

    method Insert(d: Digest, g: Grant) returns (stored: Grant)
      modifies this
      ensures mem == Inserted(d, old(mem), g) && stored == EnsureDefaults(d, g)
    {
      stored := EnsureDefaults(d, g);
      mem := mem[stored.fingerprint := stored];
    }

    method Delete(g: Grant) returns (r: Grant)
      modifies this
      ensures mem == old(mem) - {g.fingerprint}
      ensures r == if g.fingerprint in old(mem) then old(mem)[g.fingerprint] else g
    {
      r := if g.fingerprint in mem then mem[g.fingerprint] else g;
      mem := mem - {g.fingerprint};
    }
  }

  predicate DistinctFps(gs: seq<Grant>) {
    forall i, j :: 0 <= i < j < |gs| ==> gs[i].fingerprint != gs[j].fingerprint
  }

  /** Grants of the storage that the filter does not match, none twice. */
  predicate Offers(h: Hash, bits: Bits, store: map<string, Grant>, gs: seq<Grant>) {
    && DistinctFps(gs)
    && forall g :: g in gs ==> g.fingerprint in store && g == store[g.fingerprint] && !Test(h, bits, g.fingerprint)
  }

  /** All of them. */
  predicate Produces(h: Hash, bits: Bits, store: map<string, Grant>, gs: seq<Grant>) {
    Offers(h, bits, store, gs) && forall k :: k in store && !Test(h, bits, k) ==> store[k] in gs
  }

  /** `memory.Sync`: goes through the map in any order and sends what the filter does
      not match, until it is done or its context ends after so many sends. */
  method SyncStorage(m: map<string, Grant>, h: Hash, bits: Bits, patience: Option<nat>)
      returns (sent: seq<Grant>, ok: bool)
    requires Consistent(m)
    ensures Offers(h, bits, m, sent)
    ensures ok ==> Produces(h, bits, m, sent)
    ensures patience.None? ==> ok
  {
    sent := [];
    var todo := m.Keys;
    while todo != {}
      invariant todo <= m.Keys
      invariant Offers(h, bits, m, sent)
      invariant forall k :: k in m && k !in todo && !Test(h, bits, k) ==> m[k] in sent
      invariant forall g :: g in sent ==> g.fingerprint !in todo
      decreases todo
    {
      var k :| k in todo;
      todo := todo - {k};
      if Test(h, bits, k) {
        continue;
      }
      if patience.Some? && |sent| >= patience.value {
        return sent, false;
      }
      sent := sent + [m[k]];
    }
    ok := true;
  }

  /** `Composite.Sync`: every storage is attempted, whatever happened to the others. */
  method SyncAll(stores: seq<map<string, Grant>>, h: Hash, bits: Bits, patience: nat -> Option<nat>)
      returns (parts: seq<seq<Grant>>, ok: bool)
    requires forall i :: 0 <= i < |stores| ==> Consistent(stores[i])
    ensures |parts| == |stores|
    ensures forall i :: 0 <= i < |stores| ==> Offers(h, bits, stores[i], parts[i])
    ensures ok ==> forall i :: 0 <= i < |stores| ==> Produces(h, bits, stores[i], parts[i])
    ensures (forall i :: patience(i).None?) ==> ok
  {
    parts, ok := [], true;
    for i := 0 to |stores|
      invariant |parts| == i
      invariant forall k :: 0 <= k < i ==> Offers(h, bits, stores[k], parts[k])
      invariant ok ==> forall k :: 0 <= k < i ==> Produces(h, bits, stores[k], parts[k])
      invariant (forall k :: patience(k).None?) ==> ok
    {
      var sent, fine := SyncStorage(stores[i], h, bits, patience(i));
      parts := parts + [sent];
      ok := ok && fine;
    }
  }

  // ---------------------------------------------------------------------------
  // Several storages as one

  /** A storage that can only be looked up; some cannot be enumerated. */
  datatype Bucket = Bucket(grants: map<string, Grant>, enumerable: bool)

  datatype Composite = Composite(primary: map<string, Grant>, buckets: seq<Bucket>)

  /** The primary first, then the buckets in order. */
  function Lookup(c: Composite, fp: string): Option<Grant> {
    if fp in c.primary then Some(c.primary[fp]) else LookupIn(c.buckets, fp)
  }

  function LookupIn(buckets: seq<Bucket>, fp: string): Option<Grant> {
    if buckets == [] then None
    else if fp in buckets[0].grants then Some(buckets[0].grants[fp])
    else LookupIn(buckets[1..], fp)
  }

  /** What looking a fingerprint up means: found exactly when some storage has it, and
      then as the first of them has it. */
  lemma {:induction false} LookupInMeaning(buckets: seq<Bucket>, fp: string)
    ensures LookupIn(buckets, fp).None? <==> forall i :: 0 <= i < |buckets| ==> fp !in buckets[i].grants
    ensures LookupIn(buckets, fp).Some? ==>
            exists i :: 0 <= i < |buckets| && fp in buckets[i].grants
                        && LookupIn(buckets, fp).value == buckets[i].grants[fp]
                        && forall k :: 0 <= k < i ==> fp !in buckets[k].grants
  {
    if buckets != [] {
      LookupInMeaning(buckets[1..], fp);
      assert forall i :: 0 < i < |buckets| ==> buckets[i] == buckets[1..][i - 1];
      if fp !in buckets[0].grants && LookupIn(buckets, fp).Some? {
        var rest := buckets[1..];
        var i :| 0 <= i < |rest| && fp in rest[i].grants && LookupIn(rest, fp).value == rest[i].grants[fp]
                 && forall k :: 0 <= k < i ==> fp !in rest[k].grants;
        assert buckets[i + 1] == rest[i];
        assert forall k :: 0 < k < i + 1 ==> buckets[k] == rest[k - 1];
      }
    }
  }

  /** What the storages hold. */
  function Value(primary: Memory, buckets: seq<Memory>): Composite
    reads primary, buckets
  {
    Composite(primary.mem, seq(|buckets|, i requires 0 <= i < |buckets| reads buckets => Bucket(buckets[i].mem, true)))
  }

  /** Several storages behind one interface; insertions and deletions go to the primary. */
  class CompositeStorage {
    const primary: Memory
    const buckets: seq<Memory>

    ghost predicate Valid() {
      primary !in buckets
    }

    constructor (primary: Memory, buckets: seq<Memory>)
      requires primary !in buckets
      ensures Valid() && this.primary == primary && this.buckets == buckets
    {
      this.primary, this.buckets := primary, buckets;
    }

    method Find(fingerprint: string) returns (g: Option<Grant>)
      ensures g == Lookup(Value(primary, buckets), fingerprint)
    {
      g := primary.Lookup(fingerprint);
      if g.Some? {
        return;
      }
      ghost var values := Value(primary, buckets).buckets;
      assert values[0..] == values;
      for i := 0 to |buckets|
        invariant LookupIn(values, fingerprint) == LookupIn(values[i..], fingerprint)
      {
        assert values[i..][1..] == values[i + 1..];
        g := buckets[i].Lookup(fingerprint);
        if g.Some? {
          return;
        }
      }
      g := None;
    }

    /** A grant inserted is what its fingerprint looks up from then on; no other
        fingerprint is affected. */
    method Insert(d: Digest, g: Grant) returns (stored: Grant)
      requires Valid()
      modifies primary
      ensures Valid() && (HasDefaults(stored) || d(g.authorization) == "")
      ensures stored.authorization == g.authorization
      ensures stored.fingerprint == if g.fingerprint != "" then g.fingerprint else d(g.authorization)
      ensures stored.permission == if g.permission.Some? then g.permission else Some("none")
      ensures forall fp :: Lookup(Value(primary, buckets), fp) ==
                           if fp == stored.fingerprint then Some(stored) else Lookup(old(Value(primary, buckets)), fp)
    {
      stored := primary.Insert(d, g);
      assert Value(primary, buckets).buckets == old(Value(primary, buckets).buckets);
    }

    /** A grant deleted gives way to what the buckets have for its fingerprint, which
        deletion cannot reach. */
    method Delete(g: Grant) returns (r: Grant)
      requires Valid()
      modifies primary
      ensures Valid()
      ensures forall fp :: Lookup(Value(primary, buckets), fp) ==
                           if fp == g.fingerprint then LookupIn(old(Value(primary, buckets)).buckets, fp)
                           else Lookup(old(Value(primary, buckets)), fp)
      ensures g.fingerprint in old(primary.mem) ==> Some(r) == Lookup(old(Value(primary, buckets)), g.fingerprint)
    {
      r := primary.Delete(g);
      assert Value(primary, buckets).buckets == old(Value(primary, buckets).buckets);
    }

    /** Deleting a grant undoes its insertion, unless the primary had its fingerprint. */
    method InsertThenDelete(d: Digest, g: Grant)
      requires Valid()
      modifies primary
      ensures EnsureDefaults(d, g).fingerprint !in old(primary.mem) ==>
              forall fp :: Lookup(Value(primary, buckets), fp) == Lookup(old(Value(primary, buckets)), fp)
    {
      var stored := primary.Insert(d, g);
      assert Value(primary, buckets).buckets == old(Value(primary, buckets).buckets);
      var gone := Delete(stored);
    }
  }

  /** Every fingerprint the filter generation goes through. */
  function Fingerprints(c: Composite): set<string> {
    c.primary.Keys + set i, fp | 0 <= i < |c.buckets| && c.buckets[i].enumerable && fp in c.buckets[i].grants :: fp
  }

  predicate AllEnumerable(c: Composite) {
    forall i :: 0 <= i < |c.buckets| ==> c.buckets[i].enumerable
  }

  /** What is gone through can be looked up, and if every storage can be enumerated that
      is all that can be looked up. */
  lemma EnumeratedIsFound(c: Composite, fp: string)
    ensures fp in Fingerprints(c) ==> Lookup(c, fp).Some?
    ensures AllEnumerable(c) ==> (fp in Fingerprints(c) <==> Lookup(c, fp).Some?)
  {
    LookupInMeaning(c.buckets, fp);
  }

  /** If not, a grant can be found that is never gone through. */
  lemma FoundNotEnumerated(g: Grant)
    ensures var c := Composite(map[], [Bucket(map[g.fingerprint := g], false)]);
            Lookup(c, g.fingerprint) == Some(g) && g.fingerprint !in Fingerprints(c)
  {
    LookupInMeaning([Bucket(map[g.fingerprint := g], false)], g.fingerprint);
  }

  ghost predicate Covers(h: Hash, bits: Bits, fps: set<string>) {
    forall fp :: fp in fps ==> Test(h, bits, fp)
  }

  /** `Bloomfilter`. One goroutine goes through the stored grants, `order` being the
      fingerprints as it meets them, tests each and hands over those the filter does
      not match, or gives one up when its context ends just then (`drops`); another adds
      what it is handed. Tests and additions interleave in any way, and the filter still
      covers every fingerprint that was met and not given up: all that were stored,
      unless the enumeration fails, which is reported. */
  method Bloomfilter(c: Composite, hash: Hash, order: seq<string>, drops: nat -> bool, fails: bool)
      returns (b: Bloom, err: bool)
    requires forall fp :: fp in order ==> fp in Fingerprints(c)
    requires !fails ==> forall i :: 0 <= i < |order| ==> !drops(i)
    requires !fails ==> forall fp :: fp in Fingerprints(c) ==> fp in order
    ensures fresh(b) && b.hash == hash && err == fails
    ensures forall i :: 0 <= i < |order| && !drops(i) ==> Test(hash, b.bits, order[i])
    ensures !err ==> Covers(hash, b.bits, Fingerprints(c))
    ensures forall h :: h in b.bits ==> exists fp :: fp in order && h in hash(fp)
  {
    b := new Bloom(hash);
    err := fails;
    var next := 0;
    var tested: Option<string> := None;  // tested, waiting to be handed over
    var handed: Option<string> := None;  // handed over, not added yet
    while next < |order| || tested.Some? || handed.Some?
      invariant next <= |order| && b.hash == hash
      invariant forall i :: 0 <= i < next && !drops(i) ==>
                  tested == Some(order[i]) || handed == Some(order[i]) || b.Matches(order[i])
      invariant (tested.Some? ==> tested.value in order) && (handed.Some? ==> handed.value in order)
      invariant forall h :: h in b.bits ==> exists fp :: fp in order && h in hash(fp)
      decreases 3 * (|order| - next) + (if tested.Some? then 2 else 0) + if handed.Some? then 1 else 0
    {
      if
      case next < |order| && tested.None? =>
        if !b.Matches(order[next]) && !drops(next) {
          tested := Some(order[next]);
        }
        next := next + 1;
      case tested.Some? && handed.None? =>
        handed, tested := tested, None;
      case handed.Some? =>
        b.AddKey(handed.value);
        handed := None;
    }
    if !err {
      forall fp | fp in Fingerprints(c)
        ensures b.Matches(fp)
      {
        var i :| 0 <= i < |order| && order[i] == fp;
      }
    }
  }
}
