/** One worker of a rollout, among others that share its counters
    (`worker.work` and `worker.Complete` of deployment/deploy.go). */
module Worker {

  /** How an operation ends. */
  datatype Result = Fine | Broken

  /** The counters all workers share. */
  class Counters {
    var completed: nat
    var failed: nat

    constructor ()
      ensures completed == 0 && failed == 0
    {
      completed, failed := 0, 0;
    }

    method AddCompleted()
      modifies this`completed
      ensures completed == old(completed) + 1
    {
      completed := completed + 1;
    }

    method AddFailed()
      modifies this`failed
      ensures failed == old(failed) + 1
    {
      failed := failed + 1;
    }

    /** What the other workers do between two steps of this one. */
    method Interfere(completions: nat, failures: nat)
      modifies this
      ensures completed == old(completed) + completions && failed == old(failed) + failures
    {
      completed, failed := completed + completions, failed + failures;
    }

    /** Reports the failures, and whether the rollout counts as a success. */
    method Complete(ignoreFailures: bool) returns (failures: nat, success: bool)
      ensures failures == failed && (success <==> ignoreFailures || failed == 0)
    {
      failures := failed;
      success := ignoreFailures || failures == 0;
    }
  }

  function Sum(f: nat -> nat, n: nat): nat {
    if n == 0 then 0 else Sum(f, n - 1) + f(n - 1)
  }

  function Brokens(results: seq<Result>): nat {
    if results == [] then 0
    else Brokens(results[..|results| - 1]) + if results[|results| - 1].Broken? then 1 else 0
  }

  /** The failures there are when this worker, having run every operation before `i`,
      checks whether to run that one: `already` counted at the start, those of others
      since then and its own. */
  function Visible(already: nat, failures: nat -> nat, results: seq<Result>, i: nat): nat
    requires i <= |results|
  {
    already + Sum(failures, i + 1) + Brokens(results[..i])
  }

  /** How many of the first `n` operations this worker runs. */
  function Runs(ignoreFailures: bool, already: nat, failures: nat -> nat, results: seq<Result>, n: nat): (r: nat)
    requires n <= |results|
    ensures r <= n
  {
    if n == 0 then 0
    else
      var r := Runs(ignoreFailures, already, failures, results, n - 1);
      if r == n - 1 && (ignoreFailures || Visible(already, failures, results, n - 1) == 0) then n else r
  }

  /** It runs those before the first check that sees a failure, or all of them when
      failures are ignored. So it breaks at most one node unless they are, and none if
      there was a failure before. */
  lemma {:induction false} RunsMeaning(ignoreFailures: bool, already: nat, failures: nat -> nat, results: seq<Result>,
                                       n: nat)
    requires n <= |results|
    ensures var r := Runs(ignoreFailures, already, failures, results, n);
            && (ignoreFailures ==> r == n)
            && (r < n ==> Visible(already, failures, results, r) > 0)
            && (!ignoreFailures ==>
                && (forall i :: 0 <= i < r ==> Visible(already, failures, results, i) == 0)
                && Brokens(results[..r]) <= 1
                && (already > 0 ==> r == 0))
  {
    if n > 0 {
      RunsMeaning(ignoreFailures, already, failures, results, n - 1);
      assert results[..n][..n - 1] == results[..n - 1];
    }
  }

  /** `work`, for the operations this worker takes off the channel, with the others
      adding to the counters before each check (`completions`, `failures`). Every
      operation is counted exactly once: as failed if it ran and broke, as completed
      otherwise, skipped ones included. */
  method Work(c: Counters, ignoreFailures: bool, results: seq<Result>, completions: nat -> nat, failures: nat -> nat)
      returns (ran: nat)
    modifies c
    ensures ran == Runs(ignoreFailures, old(c.failed), failures, results, |results|)
    ensures c.failed == old(c.failed) + Sum(failures, |results|) + Brokens(results[..ran])
    ensures c.completed == old(c.completed) + Sum(completions, |results|) + |results| - Brokens(results[..ran])
  {
    ran := 0;
    for i := 0 to |results|
      invariant ran == Runs(ignoreFailures, old(c.failed), failures, results, i)
      invariant c.failed == old(c.failed) + Sum(failures, i) + Brokens(results[..ran])
      invariant c.completed == old(c.completed) + Sum(completions, i) + i - Brokens(results[..ran])
      invariant ran < i ==> !ignoreFailures && c.failed > 0
    {
      c.Interfere(completions(i), failures(i));
      assert ran == i ==> c.failed == Visible(old(c.failed), failures, results, i);
      if c.failed > 0 && !ignoreFailures {
        c.AddCompleted();
        continue;
      }
      assert results[..i + 1][..i] == results[..i];
      ran := ran + 1;
      match results[i] {
        case Broken => c.AddFailed();
        case Fine => c.AddCompleted();
      }
    }
  }
}
