/** When the leader's rounds come to rest (clustering/raftutil/leader.go): with calls to
    Raft that fail only if Raft refuses the change, exactly when the candidates' addresses
    do not stand in each other's way. */
module Convergence {
  import opened Base
  import opened Membership

  /** Every call gets through; Raft still refuses what would be no valid configuration. */
  const WORKS: nat -> Luck := (i: nat) => Works

  /** A server and its address. */
  type Home = (Id, string)

  function Homes(c: Config): set<Home> {
    set s | s in c :: (s.id, s.address)
  }

  /** Another server has the address. */
  predicate Taken(h: set<Home>, x: Home) {
    exists y :: y in h && y.0 != x.0 && y.1 == x.1
  }

  function Resettled(h: set<Home>, x: Home): set<Home> {
    (set y | y in h && y.0 != x.0) + {x}
  }

  /** Servers are where they are, and nowhere twice. */
  predicate Orderly(h: set<Home>) {
    forall x, y :: x in h && y in h ==> (x.0 == y.0 <==> x.1 == y.1)
  }

  lemma ValidIsOrderly(c: Config)
    requires CheckConfiguration(c)
    ensures Orderly(Homes(c))
  {
    forall x, y | x in Homes(c) && y in Homes(c)
      ensures x.0 == y.0 <==> x.1 == y.1
    {
      var s :| s in c && x == (s.id, s.address);
      var t :| t in c && y == (t.id, t.address);
      var i :| 0 <= i < |c| && c[i] == s;
      var j :| 0 <= j < |c| && c[j] == t;
    }
  }

  // ---------------------------------------------------------------------------
  // What one change does

  lemma AddHomes(c: Config, id: Id, address: string)
    requires DistinctIds(c)
    ensures Homes(NextConfiguration(c, AddVoter(id, address))) == Resettled(Homes(c), (id, address))
  {
    var c', i, added := NextConfiguration(c, AddVoter(id, address)), Find(c, id), Server(id, address, Voter);
    assert c'[i] == added;
    forall x
      ensures x in Homes(c') <==> x in Resettled(Homes(c), (id, address))
    {
      if x in Homes(c') {
        var s :| s in c' && x == (s.id, s.address);
        var k :| 0 <= k < |c'| && c'[k] == s;
        assert k != i ==> c[k] == s;
      }
      if x in Homes(c) && x.0 != id {
        var s :| s in c && x == (s.id, s.address);
        var k :| 0 <= k < |c| && c[k] == s;
        assert c'[k] == s;
      }
    }
  }

  lemma AddIsValidIff(c: Config, id: Id, address: string)
    requires CheckConfiguration(c)
    ensures CheckConfiguration(NextConfiguration(c, AddVoter(id, address))) <==>
            id != "" && address != "" && !Taken(Homes(c), (id, address))
  {
    var c', i := NextConfiguration(c, AddVoter(id, address)), Find(c, id);
    assert c'[i] == Server(id, address, Voter);
    assert forall k :: 0 <= k < |c| && k != i ==> c'[k] == c[k];
    if CheckConfiguration(c') {
      forall y | y in Homes(c) && y.0 != id
        ensures y.1 != address
      {
        var s :| s in c && y == (s.id, s.address);
        var k :| 0 <= k < |c| && c[k] == s;
        assert c'[k] == s;
      }
    }
    if id != "" && address != "" && !Taken(Homes(c), (id, address)) {
      forall k | 0 <= k < |c| && k != i
        ensures c[k].address != address && c[k].id != id
      {
        assert (c[k].id, c[k].address) in Homes(c);
      }
    }
  }

  /** An addition that gets through succeeds exactly if nobody else has the address. */
  lemma AddWorks(c: Config, x: Home, luck: Luck)
    requires CheckConfiguration(c)
    ensures var a := Attempt(c, AddVoter(x.0, x.1), luck);
            && CheckConfiguration(a.config)
            && (a.ok ==> x.0 != "" && Homes(a.config) == Resettled(Homes(c), x))
            && (Homes(a.config) == Homes(c) || (!Taken(Homes(c), x) && Homes(a.config) == Resettled(Homes(c), x)))
            && (luck == Works && x.0 != "" && x.1 != "" && !Taken(Homes(c), x) ==> a.ok)
            && (luck == Works && !a.ok ==> Homes(a.config) == Homes(c))
  {
    AddHomes(c, x.0, x.1);
    AddIsValidIff(c, x.0, x.1);
  }

  lemma VoterIsThere(c: Config, id: Id)
    requires id in Voters(c)
    ensures exists i :: 0 <= i < |c| && c[i].suffrage == Voter && c[i].id == id
  {
    var s :| s in c && s.suffrage == Voter && s.id == id;
  }

  predicate OthersAtHome(c: Config, c': Config, id: Id) {
    && CheckConfiguration(c')
    && Homes(c') <= Homes(c)
    && forall x :: x in Homes(c) && x.0 != id ==> x in Homes(c')
  }

  lemma DemoteHomes(c: Config, local: Id, id: Id)
    requires CheckConfiguration(c) && Good(c, local) && id != local
    ensures OthersAtHome(c, NextConfiguration(c, DemoteVoter(id)), id)
  {
    var c' := NextConfiguration(c, DemoteVoter(id));
    VoterIsThere(c, local);
    var v :| 0 <= v < |c| && c[v].suffrage == Voter && c[v].id == local;
    assert c'[v] == c[v];
    assert forall k :: 0 <= k < |c| ==> c'[k].id == c[k].id && c'[k].address == c[k].address;
    DemotedHomes(c, c');
  }

  function Skip(i: nat, k: nat): nat {
    if k < i then k else k + 1
  }

  lemma WithoutAt(c: Config, i: nat)
    requires i < |c|
    ensures forall k :: 0 <= k < |c| - 1 ==> (c[..i] + c[i + 1..])[k] == c[Skip(i, k)]
  {
  }

  /** Leaving a server out does no harm as long as a voter is left. */
  lemma LeavingOut(c: Config, c': Config, i: nat, v: nat)
    requires CheckConfiguration(c) && i < |c| && v < |c'| && c'[v].suffrage == Voter && |c'| == |c| - 1
    requires forall k :: 0 <= k < |c'| ==> c'[k] == c[Skip(i, k)]
    ensures CheckConfiguration(c')
  {
  }

  lemma LeavingOutAt(c: Config, i: nat, v: nat)
    requires CheckConfiguration(c) && i < |c| && v < |c| && v != i && c[v].suffrage == Voter
    ensures CheckConfiguration(c[..i] + c[i + 1..])
  {
    var c', u := c[..i] + c[i + 1..], if v < i then v else v - 1;
    WithoutAt(c, i);
    assert Skip(i, u) == v && c'[u] == c[v];
    LeavingOut(c, c', i, u);
  }

  lemma RemoveIsValid(c: Config, c': Config, local: Id, id: Id)
    requires CheckConfiguration(c) && local in Voters(c) && id != local
    requires c' == NextConfiguration(c, RemoveServer(id))
    ensures CheckConfiguration(c')
  {
    var i := Find(c, id);
    if i < |c| {
      VoterIsThere(c, local);
      var v :| 0 <= v < |c| && c[v].suffrage == Voter && c[v].id == local;
      LeavingOutAt(c, i, v);
    }
  }

  lemma RemoveHomes(c: Config, local: Id, id: Id)
    requires CheckConfiguration(c) && Good(c, local) && id != local
    ensures OthersAtHome(c, NextConfiguration(c, RemoveServer(id)), id)
  {
    var c' := NextConfiguration(c, RemoveServer(id));
    RemoveIsValid(c, c', local, id);
    assert forall s :: s in c' ==> s in c;
    forall x | x in Homes(c) && x.0 != id
      ensures x in Homes(c')
    {
      var t :| t in c && x == (t.id, t.address);
      OthersStay(c, RemoveServer(id), Works, t);
    }
  }

  /** Getting rid of a server works and leaves every other one at home. */
  lemma EvictHomes(c: Config, local: Id, s: Server)
    requires CheckConfiguration(c) && Good(c, local) && s.id != local && Eviction(s).Some?
    ensures OthersAtHome(c, NextConfiguration(c, Eviction(s).value), s.id)
  {
    if s.suffrage == Voter {
      DemoteHomes(c, local, s.id);
    } else {
      RemoveHomes(c, local, s.id);
    }
  }

  lemma DemotedHomes(c: Config, c': Config)
    requires |c| == |c'| && forall k :: 0 <= k < |c| ==> c'[k].id == c[k].id && c'[k].address == c[k].address
    ensures Homes(c) == Homes(c')
  {
    forall x
      ensures x in Homes(c) <==> x in Homes(c')
    {
      if x in Homes(c) {
        var s :| s in c && x == (s.id, s.address);
        var k :| 0 <= k < |c| && c[k] == s;
        assert c'[k] in c';
      }
      if x in Homes(c') {
        var s :| s in c' && x == (s.id, s.address);
        var k :| 0 <= k < |c'| && c'[k] == s;
        assert c[k] in c;
      }
    }
  }

  // ---------------------------------------------------------------------------
  // What the candidates want

  predicate OneEach(candidates: seq<Candidate>) {
    forall i, j :: 0 <= i < j < |candidates| ==> candidates[i].id != candidates[j].id
  }

  /** The homes of the candidates that have an address. */
  function Wanted(candidates: seq<Candidate>): set<Home> {
    set k | k in candidates && !Blank(k.address) :: (k.id, k.address)
  }

  function Unsettled(c: Config, candidates: seq<Candidate>): set<Home> {
    Wanted(candidates) - Homes(c)
  }

  predicate IsExtra(local: Id, candidates: seq<Candidate>, id: Id) {
    id != local && id !in Ids(candidates)
  }

  /** The server is not going to move. */
  predicate Fixed(candidates: seq<Candidate>, x: Home) {
    forall w :: w in Wanted(candidates) && w.0 == x.0 ==> w.1 == x.1
  }

  /** The address a candidate wants is that of a server which stays, and which does not
      move or is itself among those stuck. */
  predicate StuckBy(local: Id, candidates: seq<Candidate>, all: set<Id>, w: Home, x: Home) {
    x.0 != w.0 && x.1 == w.1 && !IsExtra(local, candidates, x.0) && (x.0 in all || Fixed(candidates, x))
  }

  predicate Stuck(h: set<Home>, local: Id, candidates: seq<Candidate>, all: set<Id>, id: Id) {
    exists w, x :: w in Wanted(candidates) && w.0 == id && x in h && StuckBy(local, candidates, all, w, x)
  }

  predicate AllStuck(h: set<Home>, local: Id, candidates: seq<Candidate>, all: set<Id>) {
    all != {} && forall id :: id in all ==> Stuck(h, local, candidates, all, id)
  }

  /** Two candidates want the same address. */
  predicate Rivals(candidates: seq<Candidate>) {
    exists v, w :: v in Wanted(candidates) && w in Wanted(candidates) && v.0 != w.0 && v.1 == w.1
  }

  /** The candidates themselves can all be added. */
  predicate Acceptable(candidates: seq<Candidate>) {
    && (forall k :: k in candidates ==> k.resolves)
    && (forall w :: w in Wanted(candidates) ==> w.0 != "")
    && !Rivals(candidates)
  }

  ghost predicate SomeStuck(h: set<Home>, local: Id, candidates: seq<Candidate>) {
    exists all :: AllStuck(h, local, candidates, all)
  }

  /** Nothing stands in the way: the candidates can be added, no staging server is too
      many, and no candidates are stuck. */
  ghost predicate Hopeful(c: Config, local: Id, candidates: seq<Candidate>) {
    && Acceptable(candidates)
    && NoStagingExtra(c, local, Ids(candidates))
    && !SomeStuck(Homes(c), local, candidates)
  }

  lemma WantedMember(candidates: seq<Candidate>, k: Candidate)
    requires k in candidates && !Blank(k.address)
    ensures (k.id, k.address) in Wanted(candidates) && k.address != ""
  {
  }

  lemma WantedOnce(candidates: seq<Candidate>, v: Home, w: Home)
    requires OneEach(candidates) && v in Wanted(candidates) && w in Wanted(candidates) && v.0 == w.0
    ensures v == w
  {
    var k :| k in candidates && !Blank(k.address) && v == (k.id, k.address);
    var l :| l in candidates && !Blank(l.address) && w == (l.id, l.address);
    var i :| 0 <= i < |candidates| && candidates[i] == k;
    var j :| 0 <= j < |candidates| && candidates[j] == l;
  }

  // ---------------------------------------------------------------------------
  // The additions of a round

  /** One addition: the homes stay or one candidate gets its own. */
  predicate Step(h: set<Home>, h': set<Home>, x: Home) {
    h' == h || (!Taken(h, x) && h' == Resettled(h, x))
  }

  function Now(c: Config, candidates: seq<Candidate>, luck: nat -> Luck, n: nat): Config
    requires n <= |candidates|
  {
    Latest(AddAll(c, candidates[..n], luck).trace)
  }

  lemma NowNext(c: Config, candidates: seq<Candidate>, luck: nat -> Luck, n: nat)
    requires n < |candidates|
    ensures AddAll(c, candidates[..n + 1], luck) == AddOne(AddAll(c, candidates[..n], luck), candidates[n], luck(n))
  {
    assert candidates[..n + 1][..n] == candidates[..n];
  }

  lemma AddOneStep(p: Phase, k: Candidate, luck: Luck)
    requires p.trace != [] && CheckConfiguration(Latest(p.trace))
    ensures var c, c' := Latest(p.trace), Latest(AddOne(p, k, luck).trace);
            && CheckConfiguration(c')
            && (Homes(c') == Homes(c) || (!Blank(k.address) && Step(Homes(c), Homes(c'), (k.id, k.address))))
  {
    AddWorks(Latest(p.trace), (k.id, k.address), luck);
  }

  lemma {:induction false} NowIsValid(c: Config, candidates: seq<Candidate>, luck: nat -> Luck, n: nat)
    requires n <= |candidates| && CheckConfiguration(c)
    ensures CheckConfiguration(Now(c, candidates, luck, n))
    decreases n
  {
    if n > 0 {
      NowIsValid(c, candidates, luck, n - 1);
      NowNext(c, candidates, luck, n - 1);
      AddOneStep(AddAll(c, candidates[..n - 1], luck), candidates[n - 1], luck(n - 1));
    }
  }

  /** What the additions do to the homes, whatever the calls do: the only new ones are
      wanted, and whoever is at home stays there. */
  lemma {:induction false} NowGrows(c: Config, candidates: seq<Candidate>, luck: nat -> Luck, n: nat)
    requires n <= |candidates| && CheckConfiguration(c) && OneEach(candidates)
    ensures Homes(Now(c, candidates, luck, n)) <= Homes(c) + Wanted(candidates)
    ensures Unsettled(Now(c, candidates, luck, n), candidates) <= Unsettled(c, candidates)
    decreases n
  {
    if n > 0 {
      var k, m := candidates[n - 1], n - 1;
      NowGrows(c, candidates, luck, m);
      NowIsValid(c, candidates, luck, m);
      NowNext(c, candidates, luck, m);
      AddOneStep(AddAll(c, candidates[..m], luck), k, luck(m));
      if !Blank(k.address) {
        WantedMember(candidates, k);
        var h, h' := Homes(Now(c, candidates, luck, m)), Homes(Now(c, candidates, luck, n));
        StepSettles(candidates, h, h', (k.id, k.address));
      }
    }
  }

  lemma StepSettles(candidates: seq<Candidate>, h: set<Home>, h': set<Home>, x: Home)
    requires OneEach(candidates) && x in Wanted(candidates) && Step(h, h', x)
    ensures h' <= h + Wanted(candidates)
    ensures Wanted(candidates) - h' <= Wanted(candidates) - h
  {
    forall w | w in Wanted(candidates) && w in h
      ensures w in h'
    {
      if w.0 == x.0 {
        WantedOnce(candidates, w, x);
      }
    }
  }

  // ---------------------------------------------------------------------------
  // Being stuck is for good

  lemma StuckIsTaken(h: set<Home>, local: Id, candidates: seq<Candidate>, all: set<Id>, y: Home)
    requires OneEach(candidates) && y in Wanted(candidates) && Stuck(h, local, candidates, all, y.0)
    ensures Taken(h, y)
  {
    var w, x :| w in Wanted(candidates) && w.0 == y.0 && x in h && StuckBy(local, candidates, all, w, x);
    WantedOnce(candidates, w, y);
  }

  lemma StuckOneStays(h: set<Home>, local: Id, candidates: seq<Candidate>, all: set<Id>, y: Home, id: Id)
    requires y in Wanted(candidates) && y.0 !in all && Stuck(h, local, candidates, all, id)
    ensures Stuck(Resettled(h, y), local, candidates, all, id)
  {
    var w, x :| w in Wanted(candidates) && w.0 == id && x in h && StuckBy(local, candidates, all, w, x);
    assert x.0 == y.0 ==> x == y;
    assert x in Resettled(h, y);
  }

  lemma StuckStays(h: set<Home>, h': set<Home>, local: Id, candidates: seq<Candidate>, all: set<Id>, y: Home)
    requires AllStuck(h, local, candidates, all) && y in Wanted(candidates) && OneEach(candidates) && Step(h, h', y)
    ensures AllStuck(h', local, candidates, all)
  {
    if y.0 in all {
      StuckIsTaken(h, local, candidates, all, y);
    } else if h' != h {
      forall id | id in all
        ensures Stuck(h', local, candidates, all, id)
      {
        StuckOneStays(h, local, candidates, all, y, id);
      }
    }
  }

  lemma {:induction false} StuckNow(c: Config, local: Id, candidates: seq<Candidate>, luck: nat -> Luck, n: nat,
                                    all: set<Id>)
    requires n <= |candidates| && CheckConfiguration(c) && OneEach(candidates)
    requires AllStuck(Homes(c), local, candidates, all)
    ensures AllStuck(Homes(Now(c, candidates, luck, n)), local, candidates, all)
    decreases n
  {
    if n > 0 {
      var k, m := candidates[n - 1], n - 1;
      StuckNow(c, local, candidates, luck, m, all);
      NowIsValid(c, candidates, luck, m);
      NowNext(c, candidates, luck, m);
      AddOneStep(AddAll(c, candidates[..m], luck), k, luck(m));
      if !Blank(k.address) {
        WantedMember(candidates, k);
        StuckStays(Homes(Now(c, candidates, luck, m)), Homes(Now(c, candidates, luck, n)), local, candidates, all,
                   (k.id, k.address));
      }
    }
  }

  lemma NowAtEnd(c: Config, candidates: seq<Candidate>, luck: nat -> Luck)
    ensures Now(c, candidates, luck, |candidates|) == Latest(AddAll(c, candidates, luck).trace)
  {
    assert candidates[..|candidates|] == candidates;
  }

  /** The configuration a round leaves is that after the additions, or one with one server
      that is too many demoted or gone. */
  lemma RoundEnds(c: Config, local: Id, candidates: seq<Candidate>, reachable: bool, luck: nat -> Luck)
    requires CheckConfiguration(c) && Good(c, local)
    ensures var c1, c' := Latest(AddAll(c, candidates, luck).trace), Next(c, local, candidates, reachable, luck);
            && CheckConfiguration(c') && Good(c', local)
            && (c' == c
                || (Homes(c') <= Homes(c1)
                    && forall x :: x in Homes(c1) && !IsExtra(local, candidates, x.0) ==> x in Homes(c')))
  {
    RoundIsSafe(c, local, candidates, reachable, luck);
    NowIsValid(c, candidates, luck, |candidates|);
    NowAtEnd(c, candidates, luck);
    AddAllIsSafe(c, local, candidates, luck);
    var p := AddAll(c, candidates, luck);
    if !p.bailed && FirstExtra(local, p.peers).Some? && Eviction(FirstExtra(local, p.peers).value).Some? {
      PeersStay(c, candidates, luck);
      PeersLeft(c, candidates, luck);
      EvictHomes(Latest(p.trace), local, FirstExtra(local, p.peers).value);
    }
  }

  function Next(c: Config, local: Id, candidates: seq<Candidate>, reachable: bool, luck: nat -> Luck): Config {
    Latest(Cleanup(c, local, candidates, reachable, luck).trace)
  }

  /** Whatever the calls do, candidates that are stuck stay stuck. */
  lemma StuckForGood(c: Config, local: Id, candidates: seq<Candidate>, reachable: bool, luck: nat -> Luck, all: set<Id>)
    requires CheckConfiguration(c) && Good(c, local) && OneEach(candidates)
    requires AllStuck(Homes(c), local, candidates, all)
    ensures AllStuck(Homes(Next(c, local, candidates, reachable, luck)), local, candidates, all)
  {
    RoundEnds(c, local, candidates, reachable, luck);
    StuckNow(c, local, candidates, luck, |candidates|, all);
    NowAtEnd(c, candidates, luck);
    var c' := Next(c, local, candidates, reachable, luck);
    if c' != c {
      StuckAmong(Homes(Latest(AddAll(c, candidates, luck).trace)), Homes(c'), local, candidates, all);
    }
  }

  lemma StuckOneAmong(h: set<Home>, h': set<Home>, local: Id, candidates: seq<Candidate>, all: set<Id>, id: Id)
    requires Stuck(h, local, candidates, all, id)
    requires forall x :: x in h && !IsExtra(local, candidates, x.0) ==> x in h'
    ensures Stuck(h', local, candidates, all, id)
  {
    var w, x :| w in Wanted(candidates) && w.0 == id && x in h && StuckBy(local, candidates, all, w, x);
    assert x in h';
  }

  lemma StuckAmong(h: set<Home>, h': set<Home>, local: Id, candidates: seq<Candidate>, all: set<Id>)
    requires AllStuck(h, local, candidates, all)
    requires forall x :: x in h && !IsExtra(local, candidates, x.0) ==> x in h'
    ensures AllStuck(h', local, candidates, all)
  {
    forall id | id in all
      ensures Stuck(h', local, candidates, all, id)
    {
      StuckOneAmong(h, h', local, candidates, all, id);
    }
  }

  // ---------------------------------------------------------------------------
  // A stable round means that nothing stood in the way

  predicate AllResolve(candidates: seq<Candidate>, n: nat)
    requires n <= |candidates|
  {
    forall i :: 0 <= i < n ==> candidates[i].resolves
  }

  lemma BailsAt(c: Config, candidates: seq<Candidate>, luck: nat -> Luck, m: nat)
    requires m < |candidates|
    ensures AddAll(c, candidates[..m + 1], luck).bailed <==>
            AddAll(c, candidates[..m], luck).bailed || !candidates[m].resolves
  {
    NowNext(c, candidates, luck, m);
  }

  lemma {:induction false} NotBailedResolves(c: Config, candidates: seq<Candidate>, luck: nat -> Luck, n: nat)
    requires n <= |candidates|
    ensures AddAll(c, candidates[..n], luck).bailed == !AllResolve(candidates, n)
    decreases n
  {
    if n == 0 {
      NobodyBails(c, candidates, luck);
    } else {
      NotBailedResolves(c, candidates, luck, n - 1);
      BailsAt(c, candidates, luck, n - 1);
      ResolveOneMore(candidates, n - 1);
    }
  }

  lemma NobodyBails(c: Config, candidates: seq<Candidate>, luck: nat -> Luck)
    ensures !AddAll(c, candidates[..0], luck).bailed
  {
    assert candidates[..0] == [];
  }

  lemma ResolveOneMore(candidates: seq<Candidate>, n: nat)
    requires n < |candidates|
    ensures AllResolve(candidates, n + 1) <==> AllResolve(candidates, n) && candidates[n].resolves
  {
  }

  lemma OneSettled(p: Phase, k: Candidate, luck: Luck)
    requires p.trace != [] && CheckConfiguration(Latest(p.trace)) && !p.bailed && !AddOne(p, k, luck).unstable
    ensures var h, h' := Homes(Latest(p.trace)), Homes(Latest(AddOne(p, k, luck).trace));
            && !p.unstable
            && (!Blank(k.address) ==> k.id != "" && (k.id, k.address) in h')
            && forall x :: x in h && x.0 != k.id ==> x in h'
  {
    AddWorks(Latest(p.trace), (k.id, k.address), luck);
  }

  lemma SettledAt(c: Config, candidates: seq<Candidate>, luck: nat -> Luck, m: nat)
    requires m < |candidates| && CheckConfiguration(c) && !AddAll(c, candidates[..m + 1], luck).unstable
    ensures var h, h', k := Homes(Now(c, candidates, luck, m)), Homes(Now(c, candidates, luck, m + 1)), candidates[m];
            && !AddAll(c, candidates[..m], luck).unstable
            && (!Blank(k.address) ==> k.id != "" && (k.id, k.address) in h')
            && forall x :: x in h && x.0 != k.id ==> x in h'
  {
    var p := AddAll(c, candidates[..m], luck);
    NowNext(c, candidates, luck, m);
    NowIsValid(c, candidates, luck, m);
    GivingUpIsUnstable(c, candidates[..m], luck);
    assert !p.bailed;
    OneSettled(p, candidates[m], luck(m));
  }

  /** Candidates whose additions all succeeded are at home. */
  lemma {:induction false} SettledWhenStable(c: Config, candidates: seq<Candidate>, luck: nat -> Luck, n: nat, i: nat)
    requires i < n <= |candidates| && CheckConfiguration(c) && OneEach(candidates) && !Blank(candidates[i].address)
    requires !AddAll(c, candidates[..n], luck).unstable
    ensures candidates[i].id != "" && (candidates[i].id, candidates[i].address) in Homes(Now(c, candidates, luck, n))
    decreases n
  {
    SettledAt(c, candidates, luck, n - 1);
    if i < n - 1 {
      SettledWhenStable(c, candidates, luck, n - 1, i);
    }
  }

  lemma NotStuckAtHome(h: set<Home>, local: Id, candidates: seq<Candidate>, all: set<Id>, id: Id)
    requires Orderly(h) && Wanted(candidates) <= h
    ensures !Stuck(h, local, candidates, all, id)
  {
    forall w, x | w in Wanted(candidates) && x in h
      ensures !StuckBy(local, candidates, all, w, x)
    {
    }
  }

  lemma NoneStuckAtHome(h: set<Home>, local: Id, candidates: seq<Candidate>, all: set<Id>)
    requires Orderly(h) && Wanted(candidates) <= h
    ensures !AllStuck(h, local, candidates, all)
  {
    if id :| id in all {
      NotStuckAtHome(h, local, candidates, all, id);
    }
  }

  lemma AllAtHome(c: Config, candidates: seq<Candidate>, luck: nat -> Luck)
    requires CheckConfiguration(c) && OneEach(candidates) && !AddAll(c, candidates, luck).unstable
    ensures Wanted(candidates) <= Homes(Latest(AddAll(c, candidates, luck).trace))
    ensures forall w :: w in Wanted(candidates) ==> w.0 != ""
  {
    NowAtEnd(c, candidates, luck);
    var n := |candidates|;
    assert candidates[..n] == candidates;
    forall w | w in Wanted(candidates)
      ensures w in Homes(Latest(AddAll(c, candidates, luck).trace)) && w.0 != ""
    {
      var k :| k in candidates && !Blank(k.address) && w == (k.id, k.address);
      var i :| 0 <= i < n && candidates[i] == k;
      SettledWhenStable(c, candidates, luck, n, i);
    }
  }

  lemma StableMeansAcceptable(c: Config, candidates: seq<Candidate>, luck: nat -> Luck)
    requires CheckConfiguration(c) && OneEach(candidates) && !AddAll(c, candidates, luck).unstable
    ensures Acceptable(candidates)
  {
    var n := |candidates|;
    assert candidates[..n] == candidates;
    GivingUpIsUnstable(c, candidates, luck);
    NotBailedResolves(c, candidates, luck, n);
    AllAtHome(c, candidates, luck);
    NowIsValid(c, candidates, luck, n);
    ValidIsOrderly(Now(c, candidates, luck, n));
  }

  lemma StableMeansHopeful(c: Config, local: Id, candidates: seq<Candidate>, reachable: bool, luck: nat -> Luck)
    requires CheckConfiguration(c) && Good(c, local) && OneEach(candidates)
    requires !Cleanup(c, local, candidates, reachable, luck).unstable
    ensures Hopeful(c, local, candidates)
  {
    StableMeansReconciled(c, local, candidates, reachable, luck);
    StableMeansAcceptable(c, candidates, luck);
    AllAtHome(c, candidates, luck);
    var n := |candidates|;
    NowAtEnd(c, candidates, luck);
    NowIsValid(c, candidates, luck, n);
    var h := Homes(Now(c, candidates, luck, n));
    ValidIsOrderly(Now(c, candidates, luck, n));
    forall all
      ensures !AllStuck(Homes(c), local, candidates, all)
    {
      NoneStuckAtHome(h, local, candidates, all);
      if AllStuck(Homes(c), local, candidates, all) {
        StuckNow(c, local, candidates, luck, n, all);
      }
    }
  }

  /** Once something stands in the way no round is stable, whatever the calls do, and it
      stands in the way of the next round too. */
  lemma HopelessForGood(c: Config, local: Id, candidates: seq<Candidate>, reachable: bool, luck: nat -> Luck)
    requires CheckConfiguration(c) && Good(c, local) && OneEach(candidates) && !Hopeful(c, local, candidates)
    ensures Cleanup(c, local, candidates, reachable, luck).unstable
    ensures var c' := Next(c, local, candidates, reachable, luck);
            CheckConfiguration(c') && Good(c', local) && !Hopeful(c', local, candidates)
  {
    if !Cleanup(c, local, candidates, reachable, luck).unstable {
      StableMeansHopeful(c, local, candidates, reachable, luck);
    }
    RoundEnds(c, local, candidates, reachable, luck);
    if !NoStagingExtra(c, local, Ids(candidates)) {
      var s :| s in c && Extra(local, Ids(candidates), s) && s.suffrage == Staging;
      StagingBlocks(c, local, candidates, reachable, luck, s);
    } else if Acceptable(candidates) {
      var all :| AllStuck(Homes(c), local, candidates, all);
      StuckForGood(c, local, candidates, reachable, luck, all);
    }
  }

  // ---------------------------------------------------------------------------
  // If nothing stands in the way each round gets further

  function TriedHomes(candidates: seq<Candidate>, n: nat): set<Home>
    requires n <= |candidates|
  {
    set i | 0 <= i < n && !Blank(candidates[i].address) :: (candidates[i].id, candidates[i].address)
  }

  /** From `h0` to `h` some of those wanted got home; or nobody moved, and everybody tried
      was at home or found the address taken. */
  predicate MovedOrTaken(wanted: set<Home>, h0: set<Home>, h: set<Home>, tried: set<Home>) {
    && wanted - h <= wanted - h0
    && (wanted - h == wanted - h0 ==> h == h0 && forall x :: x in tried ==> x in h0 || Taken(h0, x))
  }

  lemma TryOne(candidates: seq<Candidate>, h0: set<Home>, h: set<Home>, h': set<Home>, tried: set<Home>, x: Home)
    requires var wanted := Wanted(candidates);
             OneEach(candidates) && Orderly(h) && x in wanted && MovedOrTaken(wanted, h0, h, tried)
    requires h' == if Taken(h, x) then h else Resettled(h, x)
    ensures MovedOrTaken(Wanted(candidates), h0, h', tried + {x})
  {
    var wanted := Wanted(candidates);
    StepSettles(candidates, h, h', x);
    if x in h {
      HomeIsFree(h, x);
    }
    if wanted - h' == wanted - h0 {
      assert wanted - h == wanted - h0;
      assert x in h || Taken(h, x) by {
        if !Taken(h, x) {
          assert x in h';
        }
      }
    }
  }

  /** The additions of a round whose calls get through: none fails if everybody is at home;
      and if nobody new gets home, nobody moves and everybody else's address is taken. */
  predicate Tried(c: Config, candidates: seq<Candidate>, n: nat)
    requires n <= |candidates|
  {
    var p := AddAll(c, candidates[..n], WORKS);
    && !p.bailed
    && (p.unstable ==> Unsettled(c, candidates) != {})
    && MovedOrTaken(Wanted(candidates), Homes(c), Homes(Latest(p.trace)), TriedHomes(candidates, n))
  }

  /** One addition that gets through. */
  lemma TriedOne(p: Phase, k: Candidate)
    requires p.trace != [] && CheckConfiguration(Latest(p.trace)) && !p.bailed && k.resolves
    requires !Blank(k.address) ==> k.id != "" && k.address != ""
    ensures var h, p', x := Homes(Latest(p.trace)), AddOne(p, k, Works), (k.id, k.address);
            && !p'.bailed
            && (p'.unstable <==> p.unstable || (!Blank(k.address) && Taken(h, x)))
            && Homes(Latest(p'.trace)) == if !Blank(k.address) && !Taken(h, x) then Resettled(h, x) else h
  {
    AddWorks(Latest(p.trace), (k.id, k.address), Works);
    AddIsValidIff(Latest(p.trace), k.id, k.address);
  }

  lemma HomeIsFree(h: set<Home>, x: Home)
    requires Orderly(h) && x in h
    ensures !Taken(h, x) && Resettled(h, x) == h
  {
  }

  lemma TriedHomesNext(candidates: seq<Candidate>, m: nat)
    requires m < |candidates|
    ensures var k := candidates[m];
            TriedHomes(candidates, m + 1) ==
            TriedHomes(candidates, m) + if Blank(k.address) then {} else {(k.id, k.address)}
  {
  }

  lemma {:induction false} TriedAll(c: Config, candidates: seq<Candidate>, n: nat)
    requires n <= |candidates| && CheckConfiguration(c) && OneEach(candidates) && Acceptable(candidates)
    ensures Tried(c, candidates, n)
    decreases n
  {
    if n > 0 {
      var m := n - 1;
      var k, p := candidates[m], AddAll(c, candidates[..m], WORKS);
      var h, x := Homes(Latest(p.trace)), (k.id, k.address);
      TriedAll(c, candidates, m);
      NowIsValid(c, candidates, WORKS, m);
      ValidIsOrderly(Latest(p.trace));
      NowNext(c, candidates, WORKS, m);
      TriedHomesNext(candidates, m);
      if !Blank(k.address) {
        WantedMember(candidates, k);
        TakenFarFromHome(Wanted(candidates), Homes(c), h, x);
        TryOne(candidates, Homes(c), h, if Taken(h, x) then h else Resettled(h, x), TriedHomes(candidates, m), x);
      }
      TriedOne(p, k);
    }
  }

  lemma TakenFarFromHome(wanted: set<Home>, h0: set<Home>, h: set<Home>, x: Home)
    requires Orderly(h) && x in wanted && wanted - h <= wanted - h0
    ensures Taken(h, x) ==> wanted - h0 != {}
  {
    if x in h {
      HomeIsFree(h, x);
    } else {
      assert x in wanted - h;
    }
  }

  /** Candidates that nobody's move can help are stuck. */
  lemma NobodyMoves(c: Config, local: Id, candidates: seq<Candidate>)
    requires CheckConfiguration(c) && OneEach(candidates) && NoExtras(c, local, Ids(candidates))
    requires Unsettled(c, candidates) != {}
    requires forall w :: w in Unsettled(c, candidates) ==> Taken(Homes(c), w)
    ensures SomeStuck(Homes(c), local, candidates)
  {
    var all := set w | w in Unsettled(c, candidates) :: w.0;
    var some :| some in Unsettled(c, candidates);
    assert some.0 in all;
    forall id | id in all
      ensures Stuck(Homes(c), local, candidates, all, id)
    {
      var w :| w in Unsettled(c, candidates) && w.0 == id;
      var x :| x in Homes(c) && x.0 != w.0 && x.1 == w.1;
      HolderIsStuckOrFixed(c, candidates, all, x);
      var s :| s in c && x == (s.id, s.address);
      assert StuckBy(local, candidates, all, w, x);
    }
    assert AllStuck(Homes(c), local, candidates, all);
  }

  lemma HolderIsStuckOrFixed(c: Config, candidates: seq<Candidate>, all: set<Id>, x: Home)
    requires CheckConfiguration(c) && x in Homes(c)
    requires forall w :: w in Unsettled(c, candidates) ==> w.0 in all
    ensures x.0 in all || Fixed(candidates, x)
  {
    ValidIsOrderly(c);
  }

  /** What is left to do: servers to get rid of, weighted, and candidates not at home. */
  function Left(c: Config, local: Id, candidates: seq<Candidate>): int {
    Potential(c, local, Ids(candidates)) + |Unsettled(c, candidates)|
  }

  lemma FewerLeft<T>(a: set<T>, b: set<T>)
    requires a < b
    ensures |a| < |b|
  {
    assert b == a + (b - a);
    var x :| x in b - a;
  }

  /** With nobody too many a round is stable, or somebody gets home. */
  lemma AdditionsProgress(c: Config, local: Id, candidates: seq<Candidate>)
    requires CheckConfiguration(c) && OneEach(candidates) && Hopeful(c, local, candidates)
    requires NoExtras(c, local, Ids(candidates)) && AddAll(c, candidates, WORKS).unstable
    ensures Unsettled(Latest(AddAll(c, candidates, WORKS).trace), candidates) < Unsettled(c, candidates)
  {
    var n := |candidates|;
    assert candidates[..n] == candidates;
    TriedAll(c, candidates, n);
    NowGrows(c, candidates, WORKS, n);
    if Unsettled(Latest(AddAll(c, candidates, WORKS).trace), candidates) == Unsettled(c, candidates) {
      forall w | w in Unsettled(c, candidates)
        ensures Taken(Homes(c), w)
      {
        var k :| k in candidates && !Blank(k.address) && w == (k.id, k.address);
        var i :| 0 <= i < n && candidates[i] == k;
        assert w in TriedHomes(candidates, n);
      }
      NobodyMoves(c, local, candidates);
    }
  }

  /** Who was stuck after a round was stuck before it. */
  lemma NobodyGetsStuck(c: Config, c': Config, local: Id, candidates: seq<Candidate>)
    requires !Rivals(candidates) && Homes(c') <= Homes(c) + Wanted(candidates)
    requires SomeStuck(Homes(c'), local, candidates)
    ensures SomeStuck(Homes(c), local, candidates)
  {
    var all :| AllStuck(Homes(c'), local, candidates, all);
    forall id | id in all
      ensures Stuck(Homes(c), local, candidates, all, id)
    {
      var w, x :| w in Wanted(candidates) && w.0 == id && x in Homes(c') && StuckBy(local, candidates, all, w, x);
      assert x in Homes(c);
    }
    assert AllStuck(Homes(c), local, candidates, all);
  }

  /** What a round whose calls get through does when nothing stands in the way. */
  lemma HopefulRound(c: Config, local: Id, candidates: seq<Candidate>)
    requires CheckConfiguration(c) && Good(c, local) && OneEach(candidates) && Hopeful(c, local, candidates)
    ensures var c', ids := Next(c, local, candidates, true, WORKS), Ids(candidates);
            && CheckConfiguration(c') && Good(c', local) && Hopeful(c', local, candidates)
            && (Cleanup(c, local, candidates, true, WORKS).unstable ==>
                  Left(c', local, candidates) < Left(c, local, candidates))
            && (Potential(c, local, ids) > 0 ==> Cleanup(c, local, candidates, true, WORKS).unstable)
            && Potential(c', local, ids) >= Potential(c, local, ids) - 1
  {
    HopefulStays(c, local, candidates);
    if NoExtras(c, local, Ids(candidates)) {
      NoExtrasRound(c, local, candidates);
    } else {
      ExtrasRound(c, local, candidates);
    }
  }

  lemma NotGivenUp(c: Config, candidates: seq<Candidate>)
    requires Acceptable(candidates)
    ensures !AddAll(c, candidates, WORKS).bailed
  {
    assert candidates[..|candidates|] == candidates;
    NotBailedResolves(c, candidates, WORKS, |candidates|);
  }

  lemma HopefulStays(c: Config, local: Id, candidates: seq<Candidate>)
    requires CheckConfiguration(c) && Good(c, local) && OneEach(candidates) && Hopeful(c, local, candidates)
    ensures var c' := Next(c, local, candidates, true, WORKS);
            CheckConfiguration(c') && Good(c', local) && Hopeful(c', local, candidates)
  {
    var c' := Next(c, local, candidates, true, WORKS);
    RoundEnds(c, local, candidates, true, WORKS);
    StillNoStaging(c, local, candidates, WORKS);
    NowGrows(c, candidates, WORKS, |candidates|);
    NowAtEnd(c, candidates, WORKS);
    if SomeStuck(Homes(c'), local, candidates) {
      NobodyGetsStuck(c, c', local, candidates);
    }
  }

  lemma NoExtrasRound(c: Config, local: Id, candidates: seq<Candidate>)
    requires CheckConfiguration(c) && Good(c, local) && OneEach(candidates) && Hopeful(c, local, candidates)
    requires NoExtras(c, local, Ids(candidates))
    ensures var c', ids := Next(c, local, candidates, true, WORKS), Ids(candidates);
            && Potential(c', local, ids) == Potential(c, local, ids) == 0
            && (Cleanup(c, local, candidates, true, WORKS).unstable ==>
                  Left(c', local, candidates) < Left(c, local, candidates))
  {
    NotGivenUp(c, candidates);
    PeersLeft(c, candidates, WORKS);
    NoPotential(c, local, Ids(candidates));
    AddAllKeepsPotential(c, local, Ids(candidates), candidates, WORKS);
    if AddAll(c, candidates, WORKS).unstable {
      AdditionsProgress(c, local, candidates);
      FewerLeft(Unsettled(Latest(AddAll(c, candidates, WORKS).trace), candidates), Unsettled(c, candidates));
    }
  }

  lemma ExtrasRound(c: Config, local: Id, candidates: seq<Candidate>)
    requires CheckConfiguration(c) && Good(c, local) && OneEach(candidates) && Hopeful(c, local, candidates)
    requires !NoExtras(c, local, Ids(candidates))
    ensures var c', ids := Next(c, local, candidates, true, WORKS), Ids(candidates);
            && Cleanup(c, local, candidates, true, WORKS).unstable
            && Potential(c', local, ids) == Potential(c, local, ids) - 1
            && Left(c', local, candidates) < Left(c, local, candidates)
  {
    var p, ids := AddAll(c, candidates, WORKS), Ids(candidates);
    var c1 := Latest(p.trace);
    var s := SomebodyTooMany(c, local, candidates);
    AddAllIsSafe(c, local, candidates, WORKS);
    AddAllKeepsPotential(c, local, ids, candidates, WORKS);
    NowIsValid(c, candidates, WORKS, |candidates|);
    NowGrows(c, candidates, WORKS, |candidates|);
    NowAtEnd(c, candidates, WORKS);
    OneGoes(c1, local, candidates, s);
    var c' := NextConfiguration(c1, Eviction(s).value);
    assert Next(c, local, candidates, true, WORKS) == c';
    SubsetSize(Unsettled(c', candidates), Unsettled(c, candidates));
  }

  lemma SomebodyTooMany(c: Config, local: Id, candidates: seq<Candidate>) returns (s: Server)
    requires Hopeful(c, local, candidates) && !NoExtras(c, local, Ids(candidates))
    ensures var p := AddAll(c, candidates, WORKS);
            && !p.bailed && FirstExtra(local, p.peers) == Some(s)
            && s in Latest(p.trace) && Extra(local, Ids(candidates), s) && Eviction(s).Some?
  {
    var p := AddAll(c, candidates, WORKS);
    NotGivenUp(c, candidates);
    PeersLeft(c, candidates, WORKS);
    PeersStay(c, candidates, WORKS);
    var extra :| extra in c && Extra(local, Ids(candidates), extra);
    assert extra in p.peers;
    s := FirstExtra(local, p.peers).value;
  }

  /** Getting rid of one server too many, by one step. */
  lemma OneGoes(c: Config, local: Id, candidates: seq<Candidate>, s: Server)
    requires CheckConfiguration(c) && Good(c, local) && s in c && Extra(local, Ids(candidates), s) && Eviction(s).Some?
    ensures var c' := NextConfiguration(c, Eviction(s).value);
            && Attempt(c, Eviction(s).value, Works) == Attempted(c', true)
            && Potential(c', local, Ids(candidates)) == Potential(c, local, Ids(candidates)) - 1
            && Unsettled(c', candidates) <= Unsettled(c, candidates)
  {
    var c' := NextConfiguration(c, Eviction(s).value);
    EvictHomes(c, local, s);
    EvictLowersPotential(c, local, Ids(candidates), s);
    CandidatesStayHome(c, c', candidates, s.id);
  }

  lemma CandidatesStayHome(c: Config, c': Config, candidates: seq<Candidate>, id: Id)
    requires OthersAtHome(c, c', id) && id !in Ids(candidates)
    ensures Unsettled(c', candidates) <= Unsettled(c, candidates)
  {
    forall w | w in Wanted(candidates) && w in Homes(c)
      ensures w in Homes(c')
    {
      var k :| k in candidates && w == (k.id, k.address);
      assert k.id in Ids(candidates);
    }
  }

  // ---------------------------------------------------------------------------
  // The theorem

  /** The configuration after so many rounds whose calls get through. */
  function Rounds(c: Config, local: Id, candidates: seq<Candidate>, n: nat): Config {
    if n == 0 then c else Next(Rounds(c, local, candidates, n - 1), local, candidates, true, WORKS)
  }

  predicate Stable(d: Config, local: Id, candidates: seq<Candidate>) {
    !Cleanup(d, local, candidates, true, WORKS).unstable
  }

  predicate StableAt(c: Config, local: Id, candidates: seq<Candidate>, n: nat) {
    Stable(Rounds(c, local, candidates, n), local, candidates)
  }

  predicate FirstStable(c: Config, local: Id, candidates: seq<Candidate>, n: nat) {
    StableAt(c, local, candidates, n) && forall i :: 0 <= i < n ==> !StableAt(c, local, candidates, i)
  }

  predicate Sound(c: Config, local: Id) {
    CheckConfiguration(c) && Good(c, local)
  }

  /** So many rounds were unstable, and each got further. */
  ghost predicate OnTheWay(c: Config, d: Config, local: Id, candidates: seq<Candidate>, n: nat) {
    && d == Rounds(c, local, candidates, n)
    && Sound(d, local) && Hopeful(d, local, candidates)
    && Left(d, local, candidates) + n <= Left(c, local, candidates)
    && Potential(c, local, Ids(candidates)) <= Potential(d, local, Ids(candidates)) + n
    && forall i :: 0 <= i < n ==> !StableAt(c, local, candidates, i)
  }

  ghost predicate Advances(d: Config, d': Config, local: Id, candidates: seq<Candidate>) {
    && Sound(d', local) && Hopeful(d', local, candidates)
    && Left(d', local, candidates) < Left(d, local, candidates)
    && Potential(d', local, Ids(candidates)) >= Potential(d, local, Ids(candidates)) - 1
  }

  lemma RoundAdvances(d: Config, local: Id, candidates: seq<Candidate>)
    requires Sound(d, local) && OneEach(candidates) && Hopeful(d, local, candidates) && !Stable(d, local, candidates)
    ensures Advances(d, Next(d, local, candidates, true, WORKS), local, candidates)
  {
    HopefulRound(d, local, candidates);
  }

  lemma OneRoundFurther(c: Config, d: Config, d': Config, local: Id, candidates: seq<Candidate>, n: nat)
    requires OnTheWay(c, d, local, candidates, n) && !Stable(d, local, candidates)
    requires d' == Rounds(c, local, candidates, n + 1) && Advances(d, d', local, candidates)
    ensures OnTheWay(c, d', local, candidates, n + 1)
  {
    assert !StableAt(c, local, candidates, n);
  }

  lemma LeftIsNatural(c: Config, local: Id, candidates: seq<Candidate>)
    ensures Left(c, local, candidates) >= Potential(c, local, Ids(candidates)) >= 0
  {
    NoPotential(c, local, Ids(candidates));
  }

  lemma StableHasNobodyTooMany(d: Config, local: Id, candidates: seq<Candidate>)
    requires Sound(d, local) && Stable(d, local, candidates)
    ensures Potential(d, local, Ids(candidates)) == 0
    ensures Reconciled(Next(d, local, candidates, true, WORKS), local, candidates)
  {
    StableMeansReconciled(d, local, candidates, true, WORKS);
    NoPotential(d, local, Ids(candidates));
  }

  /** The first stable round comes after as many unstable ones as there are steps to get
      rid of the servers too many, and at most one more for each candidate not at home;
      the configuration is then reconciled. */
  predicate RestsAt(c: Config, local: Id, candidates: seq<Candidate>, n: nat) {
    && Potential(c, local, Ids(candidates)) <= n <= Left(c, local, candidates)
    && FirstStable(c, local, candidates, n)
    && Reconciled(Rounds(c, local, candidates, n + 1), local, candidates)
  }

  lemma RestsHere(c: Config, d: Config, local: Id, candidates: seq<Candidate>, n: nat)
    requires OnTheWay(c, d, local, candidates, n) && Stable(d, local, candidates)
    ensures RestsAt(c, local, candidates, n)
  {
    LeftIsNatural(d, local, candidates);
    StableHasNobodyTooMany(d, local, candidates);
    assert Rounds(c, local, candidates, n + 1) == Next(d, local, candidates, true, WORKS);
  }

  lemma GoesOn(c: Config, d: Config, local: Id, candidates: seq<Candidate>, n: nat) returns (d': Config)
    requires OneEach(candidates) && OnTheWay(c, d, local, candidates, n) && !Stable(d, local, candidates)
    ensures OnTheWay(c, d', local, candidates, n + 1) && Left(d', local, candidates) < Left(d, local, candidates)
  {
    d' := Next(d, local, candidates, true, WORKS);
    RoundAdvances(d, local, candidates);
    assert d' == Rounds(c, local, candidates, n + 1);
    OneRoundFurther(c, d, d', local, candidates, n);
  }

  lemma {:induction false} ComesToRest(c: Config, d: Config, local: Id, candidates: seq<Candidate>, m: nat)
      returns (n: nat)
    requires OneEach(candidates) && OnTheWay(c, d, local, candidates, m)
    ensures RestsAt(c, local, candidates, n)
    decreases Left(d, local, candidates)
  {
    LeftIsNatural(d, local, candidates);
    if Stable(d, local, candidates) {
      n := m;
      RestsHere(c, d, local, candidates, m);
    } else {
      var d' := GoesOn(c, d, local, candidates, m);
      n := ComesToRest(c, d', local, candidates, m + 1);
    }
  }

  /** If nothing stands in the way the rounds come to rest. */
  lemma Converges(c: Config, local: Id, candidates: seq<Candidate>) returns (n: nat)
    requires Sound(c, local) && OneEach(candidates) && Hopeful(c, local, candidates)
    ensures RestsAt(c, local, candidates, n)
  {
    n := ComesToRest(c, c, local, candidates, 0);
  }

  lemma {:induction false} NeverStable(c: Config, local: Id, candidates: seq<Candidate>, n: nat)
    requires Sound(c, local) && OneEach(candidates) && !Hopeful(c, local, candidates)
    ensures Sound(Rounds(c, local, candidates, n), local)
    ensures !Hopeful(Rounds(c, local, candidates, n), local, candidates)
    decreases n
  {
    if n > 0 {
      NeverStable(c, local, candidates, n - 1);
      HopelessForGood(Rounds(c, local, candidates, n - 1), local, candidates, true, WORKS);
    }
  }

  /** With fixed candidates and calls that get through, some round is stable exactly if
      nothing stands in the way at the start. */
  lemma ConvergesIff(c: Config, local: Id, candidates: seq<Candidate>)
    requires Sound(c, local) && OneEach(candidates)
    ensures (exists n: nat :: StableAt(c, local, candidates, n)) <==> Hopeful(c, local, candidates)
  {
    if Hopeful(c, local, candidates) {
      var n := Converges(c, local, candidates);
      assert StableAt(c, local, candidates, n);
    } else {
      forall n: nat
        ensures !StableAt(c, local, candidates, n)
      {
        NeverStable(c, local, candidates, n);
        HopelessForGood(Rounds(c, local, candidates, n), local, candidates, true, WORKS);
      }
    }
  }

  /** Addresses that servers too many still have do no harm: if no server that stays has
      an address some other candidate wants, nothing stands in the way of candidates that
      can be added. */
  lemma FreeAddressesSuffice(c: Config, local: Id, candidates: seq<Candidate>)
    requires Acceptable(candidates) && NoStagingExtra(c, local, Ids(candidates))
    requires forall w, x :: w in Wanted(candidates) && x in Homes(c) && x.0 != w.0 && x.1 == w.1 ==>
               IsExtra(local, candidates, x.0)
    ensures Hopeful(c, local, candidates)
  {
    forall all
      ensures !AllStuck(Homes(c), local, candidates, all)
    {
      if id :| id in all {
        NotStuckIfFree(Homes(c), local, candidates, all, id);
      }
    }
  }

  lemma NotStuckIfFree(h: set<Home>, local: Id, candidates: seq<Candidate>, all: set<Id>, id: Id)
    requires forall w, x :: w in Wanted(candidates) && x in h && x.0 != w.0 && x.1 == w.1 ==>
               IsExtra(local, candidates, x.0)
    ensures !Stuck(h, local, candidates, all, id)
  {
    forall w, x | w in Wanted(candidates) && x in h
      ensures !StuckBy(local, candidates, all, w, x)
    {
    }
  }

  /** Two candidates whose addresses are swapped in the configuration stand in each other's
      way. */
  lemma SwapBlocks(c: Config, local: Id, candidates: seq<Candidate>, x: Home, y: Home)
    requires x in Homes(c) && y in Homes(c) && x.0 != y.0
    requires (x.0, y.1) in Wanted(candidates) && (y.0, x.1) in Wanted(candidates)
    ensures !Hopeful(c, local, candidates)
  {
    var all := {x.0, y.0};
    var k :| k in candidates && k.id == x.0;
    var l :| l in candidates && l.id == y.0;
    assert k.id in Ids(candidates) && l.id in Ids(candidates);
    assert StuckBy(local, candidates, all, (x.0, y.1), y) && StuckBy(local, candidates, all, (y.0, x.1), x);
    assert Stuck(Homes(c), local, candidates, all, x.0) && Stuck(Homes(c), local, candidates, all, y.0);
    assert AllStuck(Homes(c), local, candidates, all);
  }
}
