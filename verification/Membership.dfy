/** The leader's reconciliation of the Raft configuration with the cluster
    (clustering/raftutil/leader.go), over the configuration changes Raft makes
    (vendor/github.com/hashicorp/raft/configuration.go). */
module Membership {
  import opened Base

  type Id = string

  datatype Suffrage = Voter | Nonvoter | Staging

  datatype Server = Server(id: Id, address: string, suffrage: Suffrage)

  type Config = seq<Server>

  // ---------------------------------------------------------------------------
  // Raft's configuration changes

  datatype Change = AddVoter(id: Id, address: string) | DemoteVoter(id: Id) | RemoveServer(id: Id)

  /** Where a server stands, or the length of the configuration. */
  function Find(c: Config, id: Id): (i: nat)
    ensures i <= |c|
    ensures i < |c| ==> c[i].id == id
    ensures forall k :: 0 <= k < i ==> c[k].id != id
  {
    if c == [] || c[0].id == id then 0 else 1 + Find(c[1..], id)
  }

  function NextConfiguration(c: Config, change: Change): Config {
    var i := Find(c, change.id);
    match change
    case AddVoter(id, address) =>
      if i == |c| then c + [Server(id, address, Voter)] else c[i := Server(id, address, Voter)]
    case DemoteVoter(_) => if i == |c| then c else c[i := c[i].(suffrage := Nonvoter)]
    case RemoveServer(_) => if i == |c| then c else c[..i] + c[i + 1..]
  }

  predicate DistinctIds(c: Config) {
    forall i, j :: 0 <= i < j < |c| ==> c[i].id != c[j].id
  }

  predicate CheckConfiguration(c: Config) {
    && (forall i :: 0 <= i < |c| ==> c[i].id != "" && c[i].address != "")
    && DistinctIds(c)
    && (forall i, j :: 0 <= i < j < |c| ==> c[i].address != c[j].address)
    && (exists i :: 0 <= i < |c| && c[i].suffrage == Voter)
  }

  /** How a call can go: it may fail and still take effect. */
  datatype Luck = Works | FailsUnapplied | FailsApplied

  datatype Attempted = Attempted(config: Config, ok: bool)

  function Attempt(c: Config, change: Change, luck: Luck): Attempted {
    var c' := NextConfiguration(c, change);
    if luck == FailsUnapplied || !CheckConfiguration(c') then Attempted(c, false)
    else Attempted(c', luck == Works)
  }

  // ---------------------------------------------------------------------------
  // One round of the leader

  /** A node of the cluster that should be a voter; its metadata may not decode. */
  datatype Candidate = Candidate(id: Id, address: string, resolves: bool)

  /** The white space `strings.TrimSpace` trims. */
  predicate IsSpace(c: char) {
    || '\t' <= c <= '\r' || c == ' ' || c == '\U{85}' || c == '\U{A0}' || c == '\U{1680}'
    || '\U{2000}' <= c <= '\U{200A}' || c == '\U{2028}' || c == '\U{2029}' || c == '\U{202F}'
    || c == '\U{205F}' || c == '\U{3000}'
  }

  predicate Blank(address: string) {
    forall i :: 0 <= i < |address| ==> IsSpace(address[i])
  }

  function RemovePeer(id: Id, peers: seq<Server>): (r: seq<Server>)
    ensures forall s :: s in r <==> s in peers && s.id != id
  {
    if peers == [] then []
    else
      var rest := RemovePeer(id, peers[1..]);
      if peers[0].id == id then rest else [peers[0]] + rest
  }

  /** The first peer left that is not the leader itself. */
  function FirstExtra(local: Id, peers: seq<Server>): (r: Option<Server>)
    ensures r.Some? ==> r.value in peers && r.value.id != local
    ensures r.None? ==> forall s :: s in peers ==> s.id == local
  {
    if peers == [] then None
    else if peers[0].id != local then Some(peers[0])
    else FirstExtra(local, peers[1..])
  }

  /** Where the additions have come to: the configurations so far, the peers no
      candidate accounts for, whether an addition failed, whether to give up. */
  datatype Phase = Phase(trace: seq<Config>, peers: seq<Server>, unstable: bool, bailed: bool)

  function Latest(trace: seq<Config>): Config
    requires trace != []
  {
    trace[|trace| - 1]
  }

  function AddOne(p: Phase, candidate: Candidate, luck: Luck): Phase
    requires p.trace != []
  {
    if p.bailed then p
    else if !candidate.resolves then p.(unstable := true, bailed := true)
    else
      var peers := RemovePeer(candidate.id, p.peers);
      if Blank(candidate.address) then p.(peers := peers)
      else
        var a := Attempt(Latest(p.trace), AddVoter(candidate.id, candidate.address), luck);
        p.(peers := peers, trace := p.trace + [a.config], unstable := p.unstable || !a.ok)
  }

  function AddAll(c: Config, candidates: seq<Candidate>, luck: nat -> Luck): (p: Phase)
    ensures p.trace != []
  {
    if candidates == [] then Phase([c], c, false, false)
    else
      var n := |candidates| - 1;
      AddOne(AddAll(c, candidates[..n], luck), candidates[n], luck(n))
  }

  /** What is done about a server that should not be there: nothing if it is neither
      voter nor non-voter. */
  function Eviction(s: Server): Option<Change> {
    match s.suffrage
    case Voter => Some(DemoteVoter(s.id))
    case Nonvoter => Some(RemoveServer(s.id))
    case Staging => None
  }

  datatype Round = Round(trace: seq<Config>, unstable: bool)

  /** One call of `cleanupPeers`; `luck` says how the calls to Raft go, and
      `reachable` whether the barrier and the configuration could be had. */
  function Cleanup(c: Config, local: Id, candidates: seq<Candidate>, reachable: bool, luck: nat -> Luck): (r: Round)
    ensures r.trace != []
  {
    if !reachable then Round([c], true)
    else
      var p := AddAll(c, candidates, luck);
      if p.bailed then Round(p.trace, true)
      else
        match FirstExtra(local, p.peers)
        case None => Round(p.trace, p.unstable)
        case Some(s) =>
          match Eviction(s)
          case None => Round(p.trace, true)
          case Some(change) =>
            Round(p.trace + [Attempt(Latest(p.trace), change, luck(|candidates|)).config], true)
  }

  // ---------------------------------------------------------------------------
  // Voters and majorities

  function Voters(c: Config): set<Id> {
    set s | s in c && s.suffrage == Voter :: s.id
  }

  /** The voters of two configurations differ by at most one server. */
  predicate OneVoterApart(v: set<Id>, v': set<Id>) {
    |v - v'| + |v' - v| <= 1
  }

  predicate Majority(q: set<Id>, v: set<Id>) {
    q <= v && 2 * |q| > |v|
  }

  /** Any majority of one and any majority of the other then have a server in common. */
  lemma MajoritiesIntersect(v: set<Id>, v': set<Id>, q: set<Id>, q': set<Id>)
    requires OneVoterApart(v, v') && Majority(q, v) && Majority(q', v')
    ensures q * q' != {}
  {
    var all := v + v';
    assert v == (v * v') + (v - v');
    assert v' == (v * v') + (v' - v);
    assert all == (v * v') + (v - v') + (v' - v);
    if q * q' == {} {
      assert |q + q'| == |q| + |q'|;
      SubsetSize(q + q', all);
    }
  }

  lemma SubsetSize<T>(a: set<T>, b: set<T>)
    requires a <= b
    ensures |a| <= |b|
  {
    assert b == a + (b - a);
  }

  /** Configurations whose servers are distinct and count the leader as a voter. */
  predicate Good(c: Config, local: Id) {
    DistinctIds(c) && local in Voters(c)
  }

  /** A step from one configuration to the next that is safe. */
  predicate SafeStep(c: Config, c': Config, local: Id) {
    Good(c', local) && OneVoterApart(Voters(c), Voters(c'))
  }

  predicate SafeTrace(trace: seq<Config>, local: Id) {
    forall i :: 0 <= i < |trace| - 1 ==> SafeStep(trace[i], trace[i + 1], local)
  }

  lemma SameServer(c: Config, s: Server, t: Server)
    requires DistinctIds(c) && s in c && t in c && s.id == t.id
    ensures s == t
  {
    var i :| 0 <= i < |c| && c[i] == s;
    var j :| 0 <= j < |c| && c[j] == t;
  }

  lemma VoteOf(c: Config, s: Server)
    requires DistinctIds(c) && s in c
    ensures s.id in Voters(c) <==> s.suffrage == Voter
  {
    forall t | t in c && t.id == s.id
      ensures t == s
    {
      SameServer(c, s, t);
    }
  }

  // ---------------------------------------------------------------------------
  // Each change is safe

  lemma AddVoterVoters(c: Config, id: Id, address: string)
    requires DistinctIds(c)
    ensures var c' := NextConfiguration(c, AddVoter(id, address));
            DistinctIds(c') && Voters(c') == Voters(c) + {id}
  {
  }

  lemma DemoteVoters(c: Config, id: Id)
    requires DistinctIds(c)
    ensures var c' := NextConfiguration(c, DemoteVoter(id));
            DistinctIds(c') && Voters(c') == Voters(c) - {id}
  {
  }

  lemma RemoveVoters(c: Config, s: Server)
    requires DistinctIds(c) && s in c && s.suffrage != Voter
    ensures var c' := NextConfiguration(c, RemoveServer(s.id));
            DistinctIds(c') && Voters(c') == Voters(c)
  {
  }

  /** Whatever is asked for and however it goes, a configuration in order stays in order,
      with distinct servers and somebody who votes. */
  lemma StaysInOrder(c: Config, change: Change, luck: Luck)
    requires CheckConfiguration(c)
    ensures var c' := Attempt(c, change, luck).config;
            CheckConfiguration(c') && Voters(c') != {}
  {
    var c' := Attempt(c, change, luck).config;
    var i :| 0 <= i < |c'| && c'[i].suffrage == Voter;
    assert c'[i].id in Voters(c');
  }

  lemma OneMore(v: set<Id>, id: Id)
    ensures OneVoterApart(v, v) && OneVoterApart(v, v + {id}) && OneVoterApart(v, v - {id})
  {
    assert v - v == {};
    assert v - (v + {id}) == {};
    assert (v - {id}) - v == {};
    assert v + {id} - v <= {id};
    assert v - (v - {id}) <= {id};
    SubsetSize(v + {id} - v, {id});
    SubsetSize(v - (v - {id}), {id});
  }

  lemma AddIsSafe(c: Config, local: Id, id: Id, address: string, luck: Luck)
    requires Good(c, local)
    ensures SafeStep(c, Attempt(c, AddVoter(id, address), luck).config, local)
  {
    AddVoterVoters(c, id, address);
    OneMore(Voters(c), id);
  }

  /** Getting rid of a server other than the leader is safe in either form. */
  lemma EvictIsSafe(c: Config, local: Id, s: Server, luck: Luck)
    requires Good(c, local) && s in c && s.id != local && Eviction(s).Some?
    ensures SafeStep(c, Attempt(c, Eviction(s).value, luck).config, local)
  {
    OneMore(Voters(c), s.id);
    if s.suffrage == Voter {
      DemoteVoters(c, s.id);
    } else {
      RemoveVoters(c, s);
    }
  }

  // ---------------------------------------------------------------------------
  // Every round is safe

  predicate AllIn(peers: seq<Server>, c: Config) {
    forall s :: s in peers ==> s in c
  }

  lemma PeersStayOne(p: Phase, candidate: Candidate, luck: Luck)
    requires p.trace != [] && AllIn(p.peers, Latest(p.trace))
    ensures var p' := AddOne(p, candidate, luck);
            AllIn(p'.peers, Latest(p'.trace)) && AllIn(p'.peers, p.peers)
  {
    var p' := AddOne(p, candidate, luck);
    if !p.bailed && candidate.resolves && !Blank(candidate.address) {
      forall s | s in p'.peers
        ensures s in Latest(p'.trace)
      {
        OthersStay(Latest(p.trace), AddVoter(candidate.id, candidate.address), luck, s);
      }
    }
  }

  /** The peers no candidate accounts for are still in the configuration, unchanged. */
  lemma {:induction false} PeersStay(c: Config, candidates: seq<Candidate>, luck: nat -> Luck)
    ensures var p := AddAll(c, candidates, luck);
            AllIn(p.peers, Latest(p.trace)) && AllIn(p.peers, c)
  {
    if candidates != [] {
      var n := |candidates| - 1;
      PeersStay(c, candidates[..n], luck);
      PeersStayOne(AddAll(c, candidates[..n], luck), candidates[n], luck(n));
    }
  }

  lemma OthersStay(c: Config, change: Change, luck: Luck, s: Server)
    requires s in c && s.id != change.id
    ensures s in Attempt(c, change, luck).config
  {
    var k :| 0 <= k < |c| && c[k] == s;
    var i := Find(c, change.id);
    var c' := NextConfiguration(c, change);
    if change.RemoveServer? && k > i {
      assert c'[k - 1] == s;
    } else {
      assert c'[k] == s;
    }
  }

  lemma SafeExtend(trace: seq<Config>, c: Config, local: Id)
    requires trace != [] && SafeTrace(trace, local) && SafeStep(Latest(trace), c, local)
    ensures SafeTrace(trace + [c], local)
  {
  }

  predicate GoodTrace(trace: seq<Config>, local: Id) {
    trace != [] && Good(trace[0], local) && Good(Latest(trace), local) && SafeTrace(trace, local)
  }

  lemma {:induction false} AddAllIsSafe(c: Config, local: Id, candidates: seq<Candidate>, luck: nat -> Luck)
    requires Good(c, local)
    ensures GoodTrace(AddAll(c, candidates, luck).trace, local)
    ensures AddAll(c, candidates, luck).trace[0] == c
  {
    if candidates != [] {
      var n := |candidates| - 1;
      AddAllIsSafe(c, local, candidates[..n], luck);
      var p := AddAll(c, candidates[..n], luck);
      var last := Latest(p.trace);
      AddIsSafe(last, local, candidates[n].id, candidates[n].address, luck(n));
      SafeExtend(p.trace, Attempt(last, AddVoter(candidates[n].id, candidates[n].address), luck(n)).config, local);
    }
  }

  /** One round, whatever fails in it: every change it makes moves at most one voter,
      and the leader stays a voter throughout. */
  lemma RoundIsSafe(c: Config, local: Id, candidates: seq<Candidate>, reachable: bool, luck: nat -> Luck)
    requires Good(c, local)
    ensures GoodTrace(Cleanup(c, local, candidates, reachable, luck).trace, local)
    ensures Cleanup(c, local, candidates, reachable, luck).trace[0] == c
  {
    AddAllIsSafe(c, local, candidates, luck);
    PeersStay(c, candidates, luck);
    var p := AddAll(c, candidates, luck);
    var extra := FirstExtra(local, p.peers);
    if extra.Some? && Eviction(extra.value).Some? {
      EvictIsSafe(Latest(p.trace), local, extra.value, luck(|candidates|));
      SafeExtend(p.trace, Attempt(Latest(p.trace), Eviction(extra.value).value, luck(|candidates|)).config, local);
    }
  }

  /** What the leader asks for at the end of a round, if anything. */
  function Asked(c: Config, local: Id, candidates: seq<Candidate>, luck: nat -> Luck): Option<Change> {
    var p := AddAll(c, candidates, luck);
    if p.bailed || FirstExtra(local, p.peers).None? then None else Eviction(FirstExtra(local, p.peers).value)
  }

  /** A server is removed only while it has no vote, and demoted only while it has
      one; neither ever happens to the leader. */
  lemma EvictionTargets(c: Config, local: Id, candidates: seq<Candidate>, luck: nat -> Luck)
    requires Good(c, local) && Asked(c, local, candidates, luck).Some?
    ensures var change := Asked(c, local, candidates, luck).value;
            var current := Latest(AddAll(c, candidates, luck).trace);
            && change.id != local
            && !change.AddVoter?
            && (exists s :: s in current && s.id == change.id)
            && (change.DemoteVoter? <==> change.id in Voters(current))
  {
    PeersStay(c, candidates, luck);
    AddAllIsSafe(c, local, candidates, luck);
    var p := AddAll(c, candidates, luck);
    var s := FirstExtra(local, p.peers).value;
    var current := Latest(p.trace);
    assert s in current;
    VoteOf(current, s);
  }

  // ---------------------------------------------------------------------------
  // Every run is safe

  datatype Input = Input(candidates: seq<Candidate>, reachable: bool, luck: nat -> Luck)

  /** All the configurations of a run of rounds, with candidates and luck changing
      from round to round. */
  function RunTrace(c: Config, local: Id, inputs: seq<Input>): (t: seq<Config>)
    ensures t != []
  {
    if inputs == [] then [c]
    else
      var n := |inputs| - 1;
      var front := RunTrace(c, local, inputs[..n]);
      front + Cleanup(Latest(front), local, inputs[n].candidates, inputs[n].reachable, inputs[n].luck).trace
  }

  lemma {:induction false} RunIsSafe(c: Config, local: Id, inputs: seq<Input>)
    requires Good(c, local)
    ensures GoodTrace(RunTrace(c, local, inputs), local)
  {
    OneMore(Voters(c), local);
    if inputs != [] {
      var n := |inputs| - 1;
      RunIsSafe(c, local, inputs[..n]);
      var front := RunTrace(c, local, inputs[..n]);
      var last := Latest(front);
      RoundIsSafe(last, local, inputs[n].candidates, inputs[n].reachable, inputs[n].luck);
      OneMore(Voters(last), local);
      SafeJoin(front, Cleanup(last, local, inputs[n].candidates, inputs[n].reachable, inputs[n].luck).trace, local);
    }
  }

  lemma SafeJoin(a: seq<Config>, b: seq<Config>, local: Id)
    requires GoodTrace(a, local) && GoodTrace(b, local) && b[0] == Latest(a)
    ensures GoodTrace(a + b, local)
  {
    OneMore(Voters(b[0]), local);
    forall i | 0 <= i < |a + b| - 1
      ensures SafeStep((a + b)[i], (a + b)[i + 1], local)
    {
      if i >= |a| {
        assert SafeStep(b[i - |a|], b[i - |a| + 1], local);
      }
    }
  }

  /** Over every run, in any two successive configurations any two majorities meet,
      and the leader is a voter in every configuration. */
  lemma RunKeepsQuorums(c: Config, local: Id, inputs: seq<Input>, i: nat, q: set<Id>, q': set<Id>)
    requires Good(c, local) && i + 1 < |RunTrace(c, local, inputs)|
    requires Majority(q, Voters(RunTrace(c, local, inputs)[i]))
    requires Majority(q', Voters(RunTrace(c, local, inputs)[i + 1]))
    ensures q * q' != {}
    ensures local in Voters(RunTrace(c, local, inputs)[i + 1])
  {
    RunIsSafe(c, local, inputs);
    var t := RunTrace(c, local, inputs);
    assert SafeStep(t[i], t[i + 1], local);
    MajoritiesIntersect(Voters(t[i]), Voters(t[i + 1]), q, q');
  }

  // ---------------------------------------------------------------------------
  // Rounds converge

  function Ids(candidates: seq<Candidate>): set<Id> {
    set k | k in candidates :: k.id
  }

  predicate Extra(local: Id, ids: set<Id>, s: Server) {
    s.id != local && s.id !in ids
  }

  function Weight(local: Id, ids: set<Id>, s: Server): int {
    if !Extra(local, ids, s) then 0 else if s.suffrage == Voter then 2 else 1
  }

  function Weigher(local: Id, ids: set<Id>): Server -> int {
    s => Weight(local, ids, s)
  }

  /** Twice the voters too many and once the other servers too many. */
  function Potential(c: Config, local: Id, ids: set<Id>): int {
    Total(Weigher(local, ids), c)
  }

  lemma {:induction false} TotalAppend<T>(f: T -> int, a: seq<T>, b: seq<T>)
    ensures Total(f, a + b) == Total(f, a) + Total(f, b)
  {
    if a == [] {
      assert a + b == b;
    } else {
      TotalAppend(f, a[1..], b);
      assert (a + b)[1..] == a[1..] + b;
    }
  }

  lemma TotalWithout<T>(f: T -> int, s: seq<T>, i: nat)
    requires i < |s|
    ensures Total(f, s[..i] + s[i + 1..]) == Total(f, s) - f(s[i])
  {
    var a, x, b := s[..i], [s[i]], s[i + 1..];
    assert s == a + (x + b);
    TotalAppend(f, a, x + b);
    TotalAppend(f, x, b);
    TotalAppend(f, a, b);
    assert x[1..] == [];
  }

  lemma {:induction false} NoPotential(c: Config, local: Id, ids: set<Id>)
    ensures Potential(c, local, ids) >= 0
    ensures Potential(c, local, ids) == 0 <==> forall s :: s in c ==> !Extra(local, ids, s)
  {
    if c != [] {
      NoPotential(c[1..], local, ids);
      assert c == [c[0]] + c[1..];
    }
  }

  lemma AddKeepsPotential(c: Config, local: Id, ids: set<Id>, id: Id, address: string, luck: Luck)
    requires id in ids
    ensures Potential(Attempt(c, AddVoter(id, address), luck).config, local, ids) == Potential(c, local, ids)
  {
    var i, added := Find(c, id), Server(id, address, Voter);
    if i == |c| {
      TotalAppend(Weigher(local, ids), c, [added]);
      assert Total(Weigher(local, ids), [added]) ==
             Weigher(local, ids)(added) + Total(Weigher(local, ids), [added][1..]);
    } else {
      TotalUpdate(Weigher(local, ids), c, i, added);
    }
  }

  lemma EvictLowersPotential(c: Config, local: Id, ids: set<Id>, s: Server)
    requires DistinctIds(c) && s in c && Extra(local, ids, s) && Eviction(s).Some?
    ensures Potential(NextConfiguration(c, Eviction(s).value), local, ids) == Potential(c, local, ids) - 1
  {
    var i := Find(c, s.id);
    var k :| 0 <= k < |c| && c[k] == s;
    assert k == i;
    var f := Weigher(local, ids);
    if s.suffrage == Voter {
      TotalUpdate(f, c, i, s.(suffrage := Nonvoter));
    } else {
      TotalWithout(f, c, i);
    }
  }

  lemma {:induction false} AddAllKeepsPotential(c: Config, local: Id, ids: set<Id>, candidates: seq<Candidate>,
                                                luck: nat -> Luck)
    requires Ids(candidates) <= ids
    ensures Potential(Latest(AddAll(c, candidates, luck).trace), local, ids) == Potential(c, local, ids)
  {
    if candidates != [] {
      var n := |candidates| - 1;
      assert candidates[n] in candidates && candidates[n].id in Ids(candidates);
      assert Ids(candidates[..n]) <= Ids(candidates);
      AddAllKeepsPotential(c, local, ids, candidates[..n], luck);
      AddKeepsPotential(Latest(AddAll(c, candidates[..n], luck).trace), local, ids,
                        candidates[n].id, candidates[n].address, luck(n));
    }
  }

  lemma IdsNext(candidates: seq<Candidate>)
    requires candidates != []
    ensures var n := |candidates| - 1;
            Ids(candidates) == Ids(candidates[..n]) + {candidates[n].id}
  {
    var n := |candidates| - 1;
    assert candidates == candidates[..n] + [candidates[n]];
  }

  lemma PeersLeftOne(p: Phase, candidate: Candidate, luck: Luck, s: Server)
    requires p.trace != [] && !AddOne(p, candidate, luck).bailed
    ensures s in AddOne(p, candidate, luck).peers <==> s in p.peers && s.id != candidate.id
  {
  }

  /** Unless it gave up, the additions leave exactly the peers that are no candidates. */
  lemma {:induction false} PeersLeft(c: Config, candidates: seq<Candidate>, luck: nat -> Luck)
    requires !AddAll(c, candidates, luck).bailed
    ensures forall s :: s in AddAll(c, candidates, luck).peers <==> s in c && s.id !in Ids(candidates)
  {
    if candidates != [] {
      var n := |candidates| - 1;
      var p := AddAll(c, candidates[..n], luck);
      IdsNext(candidates);
      forall s
        ensures s in AddAll(c, candidates, luck).peers <==> s in p.peers && s.id != candidates[n].id
      {
        PeersLeftOne(p, candidates[n], luck(n), s);
      }
      assert !p.bailed;
      PeersLeft(c, candidates[..n], luck);
    }
  }

  predicate NoExtras(c: Config, local: Id, ids: set<Id>) {
    forall s :: s in c ==> !Extra(local, ids, s)
  }

  predicate NoStagingExtra(c: Config, local: Id, ids: set<Id>) {
    forall s :: s in c && Extra(local, ids, s) ==> s.suffrage != Staging
  }

  lemma {:induction false} GivingUpIsUnstable(c: Config, candidates: seq<Candidate>, luck: nat -> Luck)
    ensures AddAll(c, candidates, luck).bailed ==> AddAll(c, candidates, luck).unstable
  {
    if candidates != [] {
      GivingUpIsUnstable(c, candidates[..|candidates| - 1], luck);
    }
  }

  // What a stable round leaves behind

  function ServerIds(c: Config): set<Id> {
    set s | s in c :: s.id
  }

  lemma AddedIsVoter(c: Config, id: Id, address: string, luck: Luck)
    requires DistinctIds(c) && Attempt(c, AddVoter(id, address), luck).ok
    ensures id in Voters(Attempt(c, AddVoter(id, address), luck).config)
  {
    AddVoterVoters(c, id, address);
  }

  lemma AddOnlyAdds(c: Config, id: Id, address: string, luck: Luck)
    requires DistinctIds(c)
    ensures var c' := Attempt(c, AddVoter(id, address), luck).config;
            Voters(c) <= Voters(c') && ServerIds(c') <= ServerIds(c) + {id}
  {
    AddVoterVoters(c, id, address);
    var c' := NextConfiguration(c, AddVoter(id, address));
    var i := Find(c, id);
    forall s | s in c'
      ensures s.id in ServerIds(c) + {id}
    {
      var k :| 0 <= k < |c'| && c'[k] == s;
      assert k != i ==> s == c[k];
    }
  }

  /** Every candidate with an address is a voter. */
  predicate AllVote(candidates: seq<Candidate>, c: Config) {
    forall k :: k in candidates && !Blank(k.address) ==> k.id in Voters(c)
  }

  lemma AllVoteNext(p: Phase, front: seq<Candidate>, k: Candidate, luck: Luck)
    requires p.trace != [] && DistinctIds(Latest(p.trace)) && AllVote(front, Latest(p.trace))
    requires !p.bailed && !AddOne(p, k, luck).unstable
    ensures AllVote(front + [k], Latest(AddOne(p, k, luck).trace))
  {
    if !Blank(k.address) {
      AddOnlyAdds(Latest(p.trace), k.id, k.address, luck);
      AddedIsVoter(Latest(p.trace), k.id, k.address, luck);
    }
  }

  lemma {:induction false} CandidatesVote(c: Config, local: Id, candidates: seq<Candidate>, luck: nat -> Luck)
    requires Good(c, local) && !AddAll(c, candidates, luck).unstable
    ensures AllVote(candidates, Latest(AddAll(c, candidates, luck).trace))
  {
    if candidates != [] {
      var n := |candidates| - 1;
      var front := candidates[..n];
      GivingUpIsUnstable(c, front, luck);
      CandidatesVote(c, local, front, luck);
      AddAllIsSafe(c, local, front, luck);
      AllVoteNext(AddAll(c, front, luck), front, candidates[n], luck(n));
      assert candidates == front + [candidates[n]];
    }
  }

  lemma {:induction false} NoOtherServers(c: Config, local: Id, candidates: seq<Candidate>, luck: nat -> Luck)
    requires Good(c, local)
    ensures ServerIds(Latest(AddAll(c, candidates, luck).trace)) <= ServerIds(c) + Ids(candidates)
  {
    if candidates != [] {
      var n := |candidates| - 1;
      NoOtherServers(c, local, candidates[..n], luck);
      AddAllIsSafe(c, local, candidates[..n], luck);
      IdsNext(candidates);
      AddOnlyAdds(Latest(AddAll(c, candidates[..n], luck).trace), candidates[n].id, candidates[n].address, luck(n));
    }
  }

  /** The configuration and the cluster agree: there is no server but the candidates
      and the leader, and all of these that have an address vote. */
  predicate Reconciled(c: Config, local: Id, candidates: seq<Candidate>) {
    ServerIds(c) <= Ids(candidates) + {local} && AllVote(candidates, c) && local in Voters(c)
  }

  /** When every candidate has an address that is to say they are the same. */
  lemma ReconciledExactly(c: Config, local: Id, candidates: seq<Candidate>)
    requires Reconciled(c, local, candidates) && forall k :: k in candidates ==> !Blank(k.address)
    ensures ServerIds(c) == Voters(c) == Ids(candidates) + {local}
  {
    assert Voters(c) <= ServerIds(c);
  }

  /** After a stable round, whatever the calls did, the two agree. */
  lemma StableMeansReconciled(c: Config, local: Id, candidates: seq<Candidate>, reachable: bool, luck: nat -> Luck)
    requires Good(c, local) && !Cleanup(c, local, candidates, reachable, luck).unstable
    ensures NoExtras(c, local, Ids(candidates))
    ensures Reconciled(Latest(Cleanup(c, local, candidates, reachable, luck).trace), local, candidates)
  {
    PeersLeft(c, candidates, luck);
    CandidatesVote(c, local, candidates, luck);
    NoOtherServers(c, local, candidates, luck);
    RoundIsSafe(c, local, candidates, reachable, luck);
    assert ServerIds(c) <= Ids(candidates) + {local};
  }

  lemma StagingIsOld(c: Config, change: Change, luck: Luck, s: Server)
    requires s in Attempt(c, change, luck).config && s.suffrage == Staging
    ensures s in c
  {
    var c', i := Attempt(c, change, luck).config, Find(c, change.id);
    var k :| 0 <= k < |c'| && c'[k] == s;
    if c' != c {
      if change.RemoveServer? {
        assert s == if k < i then c[k] else c[k + 1];
      } else {
        assert k != i && s == c[k];
      }
    }
  }

  lemma {:induction false} NoNewStaging(c: Config, candidates: seq<Candidate>, luck: nat -> Luck, s: Server)
    requires s in Latest(AddAll(c, candidates, luck).trace) && s.suffrage == Staging
    ensures s in c
  {
    if candidates != [] {
      var n := |candidates| - 1;
      var p := AddAll(c, candidates[..n], luck);
      if s !in Latest(p.trace) {
        StagingIsOld(Latest(p.trace), AddVoter(candidates[n].id, candidates[n].address), luck(n), s);
      }
      NoNewStaging(c, candidates[..n], luck, s);
    }
  }

  lemma StillNoStaging(c: Config, local: Id, candidates: seq<Candidate>, luck: nat -> Luck)
    requires NoStagingExtra(c, local, Ids(candidates))
    ensures NoStagingExtra(Latest(Cleanup(c, local, candidates, true, luck).trace), local, Ids(candidates))
  {
    var p := AddAll(c, candidates, luck);
    var final := Latest(Cleanup(c, local, candidates, true, luck).trace);
    forall s | s in final && s.suffrage == Staging
      ensures s in c
    {
      if Asked(c, local, candidates, luck).Some? {
        StagingIsOld(Latest(p.trace), Asked(c, local, candidates, luck).value, luck(|candidates|), s);
      }
      NoNewStaging(c, candidates, luck, s);
    }
  }

  lemma {:induction false} NonCandidatesStay(c: Config, candidates: seq<Candidate>, luck: nat -> Luck, s: Server)
    requires s in c && s.id !in Ids(candidates)
    ensures s in Latest(AddAll(c, candidates, luck).trace)
  {
    if candidates != [] {
      var n := |candidates| - 1;
      assert candidates[n] in candidates;
      NonCandidatesStay(c, candidates[..n], luck, s);
      OthersStay(Latest(AddAll(c, candidates[..n], luck).trace),
                 AddVoter(candidates[n].id, candidates[n].address), luck(n), s);
    }
  }

  /** The condition is needed: a staging server that is no candidate is never touched,
      so no round is ever stable again, whatever succeeds. */
  lemma StagingBlocks(c: Config, local: Id, candidates: seq<Candidate>, reachable: bool, luck: nat -> Luck, s: Server)
    requires Good(c, local) && s in c && Extra(local, Ids(candidates), s) && s.suffrage == Staging
    ensures Cleanup(c, local, candidates, reachable, luck).unstable
    ensures s in Latest(Cleanup(c, local, candidates, reachable, luck).trace)
  {
    NonCandidatesStay(c, candidates, luck, s);
    PeersStay(c, candidates, luck);
    AddAllIsSafe(c, local, candidates, luck);
    var p := AddAll(c, candidates, luck);
    if !p.bailed {
      PeersLeft(c, candidates, luck);
      var change := Asked(c, local, candidates, luck);
      if change.Some? {
        var extra := FirstExtra(local, p.peers).value;
        if extra.id == s.id {
          SameServer(Latest(p.trace), extra, s);
        } else {
          OthersStay(Latest(p.trace), change.value, luck(|candidates|), s);
        }
      }
    }
  }

  // ---------------------------------------------------------------------------

  /** The Raft instance a leader talks to. */
  class Raft {
    var servers: Config

    method Request(change: Change, luck: Luck) returns (ok: bool)
      modifies this
      ensures Attempted(servers, ok) == Attempt(old(servers), change, luck)
    {
      var next := NextConfiguration(servers, change);
      if luck == FailsUnapplied || !CheckConfiguration(next) {
        return false;
      }
      servers := next;
      ok := luck == Works;
    }
  }

  /** `cleanupPeers`; returns whether the peer set was unstable. */
  method CleanupPeers(r: Raft, local: Id, candidates: seq<Candidate>, reachable: bool, luck: nat -> Luck)
      returns (unstable: bool)
    modifies r
    ensures r.servers == Latest(Cleanup(old(r.servers), local, candidates, reachable, luck).trace)
    ensures unstable == Cleanup(old(r.servers), local, candidates, reachable, luck).unstable
  {
    if !reachable {
      return true;
    }
    ghost var c := r.servers;
    var peers := r.servers;
    unstable := false;
    assert candidates[..0] == [];
    for i := 0 to |candidates|
      invariant var p := AddAll(c, candidates[..i], luck);
                !p.bailed && peers == p.peers && unstable == p.unstable && r.servers == Latest(p.trace)
    {
      assert candidates[..i + 1][..i] == candidates[..i];
      var candidate := candidates[i];
      if !candidate.resolves {
        assert AddAll(c, candidates[..i + 1], luck).bailed;
        BailsForGood(c, candidates, luck, i + 1);
        return true;
      }
      peers := RemovePeer(candidate.id, peers);
      if Blank(candidate.address) {
        continue;
      }
      var ok := r.Request(AddVoter(candidate.id, candidate.address), luck(i));
      if !ok {
        unstable := true;
      }
    }
    assert candidates[..|candidates|] == candidates;
    ghost var p := AddAll(c, candidates, luck);
    assert peers[0..] == peers;
    for i := 0 to |peers|
      invariant r.servers == Latest(p.trace)
      invariant FirstExtra(local, peers[i..]) == FirstExtra(local, peers)
    {
      assert peers[i..][1..] == peers[i + 1..];
      var peer := peers[i];
      if peer.id == local {
        continue;
      }
      match peer.suffrage {
        case Voter =>
          var ok := r.Request(DemoteVoter(peer.id), luck(|candidates|));
        case Nonvoter =>
          var ok := r.Request(RemoveServer(peer.id), luck(|candidates|));
        case Staging =>
      }
      return true;
    }
  }

  lemma {:induction false} BailsForGood(c: Config, candidates: seq<Candidate>, luck: nat -> Luck, i: nat)
    requires i <= |candidates| && AddAll(c, candidates[..i], luck).bailed
    ensures AddAll(c, candidates, luck) == AddAll(c, candidates[..i], luck)
  {
    if i < |candidates| {
      var n := |candidates| - 1;
      assert candidates[..n][..i] == candidates[..i];
      BailsForGood(c, candidates[..n], luck, i);
    } else {
      assert candidates[..i] == candidates;
    }
  }
}
