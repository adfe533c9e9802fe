/** How many nodes are deployed to at once (partition.go). */
module Partition {
  import Base
  import opened Rollout
  import opened RolloutRuns
  import opened RolloutEnds

  function MinInt(a: int, b: int): int {
    if a < b then a else b
  }

  function MaxInt(a: int, b: int): int {
    if a < b then b else a
  }

  datatype Partitioner = Percent(ratio: real) | Batch(size: int)

  function Size(p: Partitioner, length: nat): int {
    match p
    case Batch(size) => MaxInt(1, MinInt(length, size))
    case Percent(ratio) =>
      var capped := if ratio < 1.0 then ratio else 1.0;
      MaxInt((length as real * capped).Floor, 1)
  }

  const INT_LIMIT: int := 0x8000_0000_0000_0000

  /** `beyond` is what the machine makes of a number too large for an integer. */
  function FromReal(p: real, beyond: int): Partitioner {
    if 0.0 < p <= 1.0 then Percent(p)
    else if p >= 1.0 then Batch(if p.Floor < INT_LIMIT then p.Floor else beyond)
    else Batch(1)
  }

  lemma ScaledDown(length: nat, ratio: real)
    requires ratio <= 1.0
    ensures (length as real * ratio).Floor <= length
  {
    assert length as real * ratio <= length as real * 1.0;
  }

  /** There is always a worker, and never more of them than nodes unless there are no
      nodes at all. */
  lemma SizeBounds(p: Partitioner, length: nat)
    ensures 1 <= Size(p, length) <= MaxInt(1, length)
  {
    if p.Percent? {
      ScaledDown(length, if p.ratio < 1.0 then p.ratio else 1.0);
    }
  }

  /** What the number given stands for: a share of the nodes up to one; above, as many
      nodes as it says or all of them; one node at a time otherwise. A number too large
      for an integer still means all of them exactly when the machine converts it to
      one that is large enough, or there is only one. */
  lemma FromRealMeaning(p: real, beyond: int, length: nat)
    ensures var n := Size(FromReal(p, beyond), length);
            && (p <= 0.0 ==> n == 1)
            && (0.0 < p <= 1.0 ==>
                (n == 1 || n as real <= p * length as real) && p * length as real < (n + 1) as real)
            && (1.0 < p < INT_LIMIT as real ==>
                n as real <= p && n <= MaxInt(1, length) && (n == MaxInt(1, length) || p < (n + 1) as real))
            && (p >= INT_LIMIT as real ==> (n == MaxInt(1, length) <==> length <= 1 || beyond >= length))
  {
    if 0.0 < p <= 1.0 {
      assert length as real * p == p * length as real;
    }
  }

  /** A rollout sized by a partitioner, whichever it is: it can always come to its end,
      and unless failures are ignored no more nodes fail than are deployed to at once. */
  lemma SizedRollout(p: Partitioner, nodes: nat, cpus: nat, actions: seq<Action>)
    requires cpus > 0
    requires Legal(Start(nodes, Size(p, nodes), false, cpus), actions)
    ensures After(Start(nodes, Size(p, nodes), false, cpus), actions).pool.failed <= Size(p, nodes) <= MaxInt(1, nodes)
    ensures exists rest :: Legal(Start(nodes, Size(p, nodes), false, cpus), actions + rest)
                           && After(Start(nodes, Size(p, nodes), false, cpus), actions + rest).monitor.returned
  {
    SizeBounds(p, nodes);
    FailuresAtMostWorkers(nodes, Size(p, nodes), cpus, actions);
    EveryRunCanFinish(nodes, Size(p, nodes), false, cpus, actions);
  }

  /** `ApplyFilter`: the peers that match, in order. */
  method ApplyFilter<T>(match_: T -> bool, peers: seq<T>) returns (subset: seq<T>)
    ensures subset == Base.Filter(match_, peers)
  {
    subset := [];
    assert peers[..0] == [];
    for i := 0 to |peers|
      invariant subset == Base.Filter(match_, peers[..i])
    {
      assert peers[..i + 1] == peers[..i] + [peers[i]];
      Base.FilterAppend(match_, peers[..i], [peers[i]]);
      assert Base.Filter(match_, [peers[i]]) ==
             (if match_(peers[i]) then [peers[i]] else []) + Base.Filter(match_, [peers[i]][1..]);
      if match_(peers[i]) {
        subset := subset + [peers[i]];
      }
    }
    assert peers[..|peers|] == peers;
  }
}
