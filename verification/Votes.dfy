/** Finding the latest deployment by asking every agent (agentutil/latest.go). */
module Votes {
  import opened Base

  datatype Stage = Deploying | Completed | Failed

  /** A deploy with its archive's deployment id, if it has an archive. */
  datatype Deploy = Deploy(archive: Option<Bytes>, stage: Stage, initiator: string)

  /** What asking one agent gives: its deployments, most recent first, or an error. */
  datatype Answer = Unreachable | Deployments(list: seq<Deploy>)

  /** `NilDereference` is the crash on a deploy without an archive. */
  datatype Error = NoDeployments | NoQuorum | OperationFailed | NilDereference

  /** `AgentLatestDeployment`: the first that completed. */
  function AgentLatest(list: seq<Deploy>): Option<Deploy> {
    if list == [] then None
    else if list[0].stage == Completed then Some(list[0])
    else AgentLatest(list[1..])
  }

  lemma {:induction false} AgentLatestMeaning(list: seq<Deploy>)
    ensures AgentLatest(list).None? <==> forall i :: 0 <= i < |list| ==> list[i].stage != Completed
    ensures AgentLatest(list).Some? ==>
            exists i :: 0 <= i < |list| && list[i] == AgentLatest(list).value && list[i].stage == Completed
                        && forall k :: 0 <= k < i ==> list[k].stage != Completed
  {
    if list != [] {
      AgentLatestMeaning(list[1..]);
      assert forall i :: 0 < i < |list| ==> list[i] == list[1..][i - 1];
      if list[0].stage != Completed && AgentLatest(list).Some? {
        var rest := list[1..];
        var i :| 0 <= i < |rest| && rest[i] == AgentLatest(rest).value && rest[i].stage == Completed
                 && forall k :: 0 <= k < i ==> rest[k].stage != Completed;
        assert list[i + 1] == rest[i];
        assert forall k :: 0 < k < i + 1 ==> list[k] == rest[k - 1];
      }
    }
  }

  predicate VotesFor(a: Answer, id: Bytes) {
    a.Deployments? && AgentLatest(a.list).Some? && AgentLatest(a.list).value.archive == Some(id)
  }

  /** What an answer stops the counting with, if anything. */
  function StopOf(a: Answer): Option<Error> {
    match a
    case Unreachable => Some(OperationFailed)
    case Deployments(list) =>
      if AgentLatest(list).Some? && AgentLatest(list).value.archive.None? then Some(NilDereference) else None
  }

  /** The first answer that stops the counting decides. */
  function Stopped(answers: seq<Answer>): Option<Error> {
    if answers == [] then None
    else
      var front := Stopped(answers[..|answers| - 1]);
      if front.Some? then front else StopOf(answers[|answers| - 1])
  }

  lemma {:induction false} StoppedMeaning(answers: seq<Answer>)
    ensures Stopped(answers).None? <==> forall i :: 0 <= i < |answers| ==> StopOf(answers[i]).None?
    ensures Stopped(answers).Some? ==>
            exists i :: 0 <= i < |answers| && StopOf(answers[i]) == Stopped(answers)
                        && forall k :: 0 <= k < i ==> StopOf(answers[k]).None?
  {
    if answers != [] {
      var n := |answers| - 1;
      StoppedMeaning(answers[..n]);
      if Stopped(answers[..n]).Some? {
        var i :| 0 <= i < n && StopOf(answers[..n][i]) == Stopped(answers)
                 && forall k :: 0 <= k < i ==> StopOf(answers[..n][k]).None?;
        assert StopOf(answers[i]) == Stopped(answers);
        assert forall k :: 0 <= k < i ==> answers[k] == answers[..n][k];
      } else {
        assert forall k :: 0 <= k < n ==> answers[k] == answers[..n][k];
      }
    }
  }

  /** How many agents report a deployment as their latest. */
  function Count(answers: seq<Answer>, id: Bytes): nat {
    if answers == [] then 0
    else Count(answers[..|answers| - 1], id) + if VotesFor(answers[|answers| - 1], id) then 1 else 0
  }

  /** What the last agent that reports a deployment says of it. */
  function LastVote(answers: seq<Answer>, id: Bytes): Option<Deploy> {
    if answers == [] then None
    else
      var a := answers[|answers| - 1];
      if VotesFor(a, id) then AgentLatest(a.list) else LastVote(answers[..|answers| - 1], id)
  }

  /** It is the latest deployment of an agent, and no later agent reports it. */
  lemma {:induction false} LastVoteMeaning(answers: seq<Answer>, id: Bytes)
    ensures LastVote(answers, id).Some? <==> Count(answers, id) > 0
    ensures LastVote(answers, id).Some? ==>
            exists i :: 0 <= i < |answers| && VotesFor(answers[i], id)
                        && AgentLatest(answers[i].list) == LastVote(answers, id)
                        && forall k :: i < k < |answers| ==> !VotesFor(answers[k], id)
  {
    if answers != [] {
      var n := |answers| - 1;
      LastVoteMeaning(answers[..n], id);
      if VotesFor(answers[n], id) {
        assert AgentLatest(answers[n].list) == LastVote(answers, id);
      } else if LastVote(answers, id).Some? {
        var i :| 0 <= i < n && VotesFor(answers[..n][i], id)
                 && AgentLatest(answers[..n][i].list) == LastVote(answers[..n], id)
                 && forall k :: i < k < n ==> !VotesFor(answers[..n][k], id);
        assert VotesFor(answers[i], id) && AgentLatest(answers[i].list) == LastVote(answers, id);
        assert forall k :: i < k < n ==> answers[k] == answers[..n][k];
      }
    }
  }

  datatype Tally = Tally(deploy: Deploy, count: nat)

  /** The tallies hold exactly the reported deployments, with their counts and as they were
      last reported. */
  ghost predicate Tallied(counts: map<Bytes, Tally>, answers: seq<Answer>) {
    && (forall id :: id in counts <==> Count(answers, id) > 0)
    && (forall id :: id in counts ==> counts[id].count == Count(answers, id) && counts[id].deploy.archive == Some(id)
                                      && counts[id].deploy.stage == Completed
                                      && Some(counts[id].deploy) == LastVote(answers, id))
  }

  /** `quorum`: the asking node does not count itself. */
  predicate Quorum(peers: nat, votes: nat) {
    votes as real >= (peers as int - 1) as real / 2.0
  }

  lemma QuorumIsHalf(peers: nat, votes: nat)
    ensures Quorum(peers, votes) <==> 2 * votes >= peers - 1
  {
  }

  /** The counting callback on one agent's answer. */
  method CountAnswer(counts: map<Bytes, Tally>, answer: Answer, ghost answers: seq<Answer>)
      returns (counts': map<Bytes, Tally>, err: Option<Error>)
    requires Tallied(counts, answers)
    ensures err == StopOf(answer)
    ensures err.None? ==> Tallied(counts', answers + [answer])
  {
    counts', err := counts, None;
    if answer.Unreachable? {
      return counts, Some(OperationFailed);
    }
    ghost var all := answers + [answer];
    assert all[..|all| - 1] == answers;
    assert forall id :: Count(all, id) == Count(answers, id) + if VotesFor(answer, id) then 1 else 0;
    assert forall id :: LastVote(all, id) ==
                        if VotesFor(answer, id) then AgentLatest(answer.list) else LastVote(answers, id);
    match AgentLatest(answer.list) {
      case None =>
      case Some(d) =>
        AgentLatestMeaning(answer.list);
        if d.archive.None? {
          return counts, Some(NilDereference);
        }
        var key := d.archive.value;
        if key in counts {
          counts' := counts[key := Tally(d, counts[key].count + 1)];
        } else {
          counts' := counts[key := Tally(d, 1)];
        }
    }
  }

  /** The tallies of the answers, unless one stops the counting. */
  method CountAll(answers: seq<Answer>) returns (counts: map<Bytes, Tally>, err: Option<Error>)
    ensures err == Stopped(answers)
    ensures err.None? ==> Tallied(counts, answers)
  {
    counts := map[];
    StoppedMeaning(answers);
    for i := 0 to |answers|
      invariant Stopped(answers[..i]).None? && Tallied(counts, answers[..i])
    {
      assert answers[..i] + [answers[i]] == answers[..i + 1];
      assert answers[..i + 1][..i] == answers[..i];
      counts, err := CountAnswer(counts, answers[i], answers[..i]);
      if err.Some? {
        StoppedEarly(answers, i + 1);
        return;
      }
    }
    assert answers[..|answers|] == answers;
    err := None;
  }

  lemma {:induction false} StoppedEarly(answers: seq<Answer>, i: nat)
    requires i <= |answers| && Stopped(answers[..i]).Some?
    ensures Stopped(answers) == Stopped(answers[..i])
  {
    if i < |answers| {
      var n := |answers| - 1;
      assert answers[..n][..i] == answers[..i];
      StoppedEarly(answers[..n], i);
    } else {
      assert answers[..i] == answers;
    }
  }

  /** `DetermineLatestDeployment`. The tallies are gone through in any order. Counting
      stops at the first node that cannot be asked, and crashes at the first whose
      latest deployment has no archive. Otherwise an error-free result is a completed
      deployment no other got more votes than, as the last node that has it reports it, with
      at least half the votes of the other nodes; an error says which of these could not be met. */
  method DetermineLatest(answers: seq<Answer>) returns (latest: Option<Deploy>, err: Option<Error>)
    ensures Stopped(answers).Some? ==> err == Stopped(answers)
    ensures err.None? ==>
            && latest.Some? && latest.value.stage == Completed && latest.value.archive.Some?
            && latest == LastVote(answers, latest.value.archive.value)
            && var votes := Count(answers, latest.value.archive.value);
               && votes > 0
               && (forall id :: Count(answers, id) <= votes)
               && 2 * votes >= |answers| - 1
    ensures err.None? <==>
            Stopped(answers).None? && exists id :: Count(answers, id) > 0 && 2 * Count(answers, id) >= |answers| - 1
    ensures err == Some(NoDeployments) <==> Stopped(answers).None? && forall id :: Count(answers, id) == 0
    ensures err == Some(NoQuorum) <==>
            && Stopped(answers).None? && (exists id :: Count(answers, id) > 0)
            && forall id :: 2 * Count(answers, id) < |answers| - 1
  {
    latest := None;
    var counts;
    counts, err := CountAll(answers);
    if err.Some? {
      StoppedKinds(answers);
      return;
    }
    var votes;
    ghost var order;
    latest, votes, order := Winner(counts);
    QuorumIsHalf(|answers|, votes);
    forall id
      ensures Count(answers, id) <= votes
    {
      assert id !in counts ==> Count(answers, id) == 0;
    }
    assert latest.Some? ==> Count(answers, latest.value.archive.value) > 0;
    assert latest.None? ==> forall id :: Count(answers, id) == 0;
    if counts == map[] {
      err := Some(NoDeployments);
    } else if !Quorum(|answers|, votes) {
      err := Some(NoQuorum);
    } else {
      err := None;
    }
  }

  lemma {:induction false} StoppedKinds(answers: seq<Answer>)
    ensures Stopped(answers) in {None, Some(OperationFailed), Some(NilDereference)}
  {
    if answers != [] {
      StoppedKinds(answers[..|answers| - 1]);
    }
  }

  // ---------------------------------------------------------------------------
  // The order of the tallies

  /** Tallies of deployments someone reported, under their archive's id. */
  predicate WellCounted(counts: map<Bytes, Tally>) {
    forall id :: id in counts ==> counts[id].count > 0 && counts[id].deploy.archive == Some(id)
  }

  datatype Choice = Choice(latest: Option<Deploy>, votes: nat)

  /** What going through the tallies in an order leads to. */
  function Pick(counts: map<Bytes, Tally>, order: seq<Bytes>): Choice
    requires forall id :: id in order ==> id in counts
  {
    if order == [] then Choice(None, 0)
    else
      var before, x := Pick(counts, order[..|order| - 1]), counts[order[|order| - 1]];
      if x.count > before.votes then Choice(Some(x.deploy), x.count) else before
  }

  /** Each tally once. */
  ghost predicate IsOrder(counts: map<Bytes, Tally>, order: seq<Bytes>) {
    && (forall id :: id in order <==> id in counts)
    && forall i, j :: 0 <= i < j < |order| ==> order[i] != order[j]
  }

  /** A choice that is one of some tallies, and none of them is larger. */
  predicate Largest(counts: map<Bytes, Tally>, order: seq<Bytes>, c: Choice) {
    && (forall id :: id in order ==> id in counts && counts[id].count <= c.votes)
    && match c.latest
       case None => order == [] && c.votes == 0
       case Some(d) => d.archive.Some? && d.archive.value in order && counts[d.archive.value] == Tally(d, c.votes)
  }

  lemma LargestNext(counts: map<Bytes, Tally>, order: seq<Bytes>, c: Choice, id: Bytes)
    requires WellCounted(counts) && Largest(counts, order, c) && id in counts
    ensures var x := counts[id];
            Largest(counts, order + [id], if x.count > c.votes then Choice(Some(x.deploy), x.count) else c)
  {
  }

  /** The order leads to a tally none is larger than. */
  lemma {:induction false} PickMeaning(counts: map<Bytes, Tally>, order: seq<Bytes>)
    requires WellCounted(counts) && forall id :: id in order ==> id in counts
    ensures Largest(counts, order, Pick(counts, order))
  {
    if order != [] {
      var front, last := order[..|order| - 1], order[|order| - 1];
      assert order == front + [last];
      PickMeaning(counts, front);
      LargestNext(counts, front, Pick(counts, front), last);
    }
  }

  /** The loop over the tallies, in any order. */
  method Winner(counts: map<Bytes, Tally>) returns (latest: Option<Deploy>, votes: nat, ghost order: seq<Bytes>)
    requires WellCounted(counts)
    ensures IsOrder(counts, order) && Choice(latest, votes) == Pick(counts, order)
    ensures latest.None? <==> counts == map[]
    ensures latest.Some? ==>
            latest.value.archive.Some? && latest.value.archive.value in counts
            && counts[latest.value.archive.value] == Tally(latest.value, votes)
    ensures forall id :: id in counts ==> counts[id].count <= votes
  {
    latest, votes, order := None, 0, [];
    var todo := counts.Keys;
    while todo != {}
      invariant todo <= counts.Keys
      invariant forall id :: id in order <==> id in counts && id !in todo
      invariant forall i, j :: 0 <= i < j < |order| ==> order[i] != order[j]
      invariant Choice(latest, votes) == Pick(counts, order)
      decreases todo
    {
      var id :| id in todo;
      todo := todo - {id};
      ghost var more := order + [id];
      assert more[..|order|] == order;
      if counts[id].count > votes {
        latest, votes := Some(counts[id].deploy), counts[id].count;
      }
      order := more;
    }
    PickMeaning(counts, order);
    if order == [] {
      assert counts == map[];
    } else {
      assert order[0] in counts;
    }
  }

  // ---------------------------------------------------------------------------

  lemma {:induction false} TwoCounts(answers: seq<Answer>, a: Bytes, b: Bytes)
    requires a != b
    ensures Count(answers, a) + Count(answers, b) <= |answers|
  {
    if answers != [] {
      TwoCounts(answers[..|answers| - 1], a, b);
    }
  }

  /** A deployment more than half of all nodes report is the only one with that many
      votes and meets the quorum, so it is what an error-free count returns. */
  lemma MajorityWins(answers: seq<Answer>, id: Bytes)
    requires 2 * Count(answers, id) > |answers|
    ensures Quorum(|answers|, Count(answers, id))
    ensures forall other :: other != id ==> Count(answers, other) < Count(answers, id)
  {
    QuorumIsHalf(|answers|, Count(answers, id));
    forall other | other != id
      ensures Count(answers, other) < Count(answers, id)
    {
      TwoCounts(answers, id, other);
    }
  }

  /** With every node reachable it is always returned, in whatever order the tallies
      are gone through. */
  method MajorityIsReturned(answers: seq<Answer>, id: Bytes) returns (latest: Option<Deploy>, err: Option<Error>)
    requires Stopped(answers).None? && 2 * Count(answers, id) > |answers|
    ensures err == None && latest.Some? && latest.value.archive == Some(id)
  {
    MajorityWins(answers, id);
    QuorumIsHalf(|answers|, Count(answers, id));
    latest, err := DetermineLatest(answers);
    assert Count(answers, id) > 0 && 2 * Count(answers, id) >= |answers| - 1;
  }

  /** Every order leads to the same choice. */
  ghost predicate OrderIsIrrelevant(counts: map<Bytes, Tally>) {
    forall a, b :: IsOrder(counts, a) && IsOrder(counts, b) ==> Pick(counts, a) == Pick(counts, b)
  }

  predicate Leads(counts: map<Bytes, Tally>, id: Bytes) {
    id in counts && forall other :: other in counts && other != id ==> counts[other].count < counts[id].count
  }

  /** Of several that none exceeds, the one met first is chosen. */
  lemma {:induction false} FirstWins(counts: map<Bytes, Tally>, id: Bytes, rest: seq<Bytes>)
    requires id in counts && counts[id].count > 0
    requires forall x :: x in rest ==> x in counts && counts[x].count <= counts[id].count
    ensures Pick(counts, [id] + rest) == Choice(Some(counts[id].deploy), counts[id].count)
  {
    var order := [id] + rest;
    if rest == [] {
      assert order[..0] == [];
      assert Pick(counts, []) == Choice(None, 0);
    } else {
      FirstWins(counts, id, rest[..|rest| - 1]);
      assert order[..|order| - 1] == [id] + rest[..|rest| - 1];
    }
  }

  lemma {:induction false} SomeOrder(ids: set<Bytes>) returns (order: seq<Bytes>)
    ensures forall id :: id in order <==> id in ids
    ensures forall i, j :: 0 <= i < j < |order| ==> order[i] != order[j]
  {
    order := [];
    if ids != {} {
      var id :| id in ids;
      var rest := SomeOrder(ids - {id});
      order := [id] + rest;
    }
  }

  lemma OrderStartingWith(counts: map<Bytes, Tally>, id: Bytes) returns (order: seq<Bytes>)
    requires WellCounted(counts) && id in counts
    requires forall x :: x in counts ==> counts[x].count <= counts[id].count
    ensures IsOrder(counts, order) && Pick(counts, order) == Choice(Some(counts[id].deploy), counts[id].count)
  {
    var rest := SomeOrder(counts.Keys - {id});
    order := [id] + rest;
    FirstWins(counts, id, rest);
  }

  lemma LeaderIsPicked(counts: map<Bytes, Tally>, id: Bytes, order: seq<Bytes>)
    requires WellCounted(counts) && Leads(counts, id) && IsOrder(counts, order)
    ensures Pick(counts, order) == Choice(Some(counts[id].deploy), counts[id].count)
  {
    PickMeaning(counts, order);
    assert id in order;
  }

  /** The order the tallies are gone through cannot matter exactly when there is none or
      one of them is larger than every other. */
  lemma OrderIsIrrelevantIff(counts: map<Bytes, Tally>)
    requires WellCounted(counts)
    ensures OrderIsIrrelevant(counts) <==> counts == map[] || exists id :: Leads(counts, id)
  {
    if id :| Leads(counts, id) {
      forall a, b | IsOrder(counts, a) && IsOrder(counts, b)
        ensures Pick(counts, a) == Pick(counts, b)
      {
        LeaderIsPicked(counts, id, a);
        LeaderIsPicked(counts, id, b);
      }
    } else if counts == map[] {
      forall a, b | IsOrder(counts, a) && IsOrder(counts, b)
        ensures Pick(counts, a) == Pick(counts, b)
      {
        PickMeaning(counts, a);
        PickMeaning(counts, b);
      }
    } else {
      var order := SomeOrder(counts.Keys);
      PickMeaning(counts, order);
      assert order != [];
      var top := Pick(counts, order).latest.value.archive.value;
      assert !Leads(counts, top);
      var other :| other in counts && other != top && counts[other].count >= counts[top].count;
      var a := OrderStartingWith(counts, top);
      var b := OrderStartingWith(counts, other);
      assert Pick(counts, a) != Pick(counts, b);
    }
  }

  ghost predicate Ahead(answers: seq<Answer>, id: Bytes) {
    forall other :: other != id ==> Count(answers, other) < Count(answers, id)
  }

  /** In terms of the answers: when anything is reported, all orders give the same
      deployment exactly when one is reported more often than every other. */
  lemma WinnerIsUniqueIff(counts: map<Bytes, Tally>, answers: seq<Answer>)
    requires Tallied(counts, answers) && counts != map[]
    ensures OrderIsIrrelevant(counts) <==> exists id :: Ahead(answers, id)
  {
    OrderIsIrrelevantIff(counts);
    if id :| Leads(counts, id) {
      assert Ahead(answers, id);
    }
    if id :| Ahead(answers, id) {
      var some :| some in counts;
      assert Count(answers, id) > 0 by {
        assert Count(answers, some) > 0;
      }
      assert Leads(counts, id);
    }
  }

  /** Two nodes with different deployments are enough for the order to matter. */
  lemma OrderCanMatter(a: Deploy, b: Deploy)
    requires a.archive.Some? && b.archive.Some? && a.archive != b.archive
    ensures !OrderIsIrrelevant(map[a.archive.value := Tally(a, 1), b.archive.value := Tally(b, 1)])
  {
    var counts := map[a.archive.value := Tally(a, 1), b.archive.value := Tally(b, 1)];
    OrderIsIrrelevantIff(counts);
    assert a.archive.value in counts && b.archive.value in counts;
  }
}
