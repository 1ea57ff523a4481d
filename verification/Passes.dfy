/** One pass over the job list under a shutdown that may land at any observation point. */
module PassRun {
  import opened JobRun

  datatype PassResult = PassResult(total: nat, ok: nat, emptySkipped: nat, failed: nat, interrupted: bool) {
    /** The marker value this pass implies. */
    predicate Healthy() { failed == 0 }

    /** Whether this pass reached a verdict it can publish. */
    predicate Vouchable() { !interrupted || failed > 0 }
  }

  /** The shutdown context is looked at before each job and at the end of each job that ran.
      Number those looks 0, 1, 2, ...; cancellation is monotone, so it is a single point. */
  predicate CancelledAt(cancelAt: nat, look: nat) {
    cancelAt <= look
  }

  function BeforeJob(i: nat): nat { 2 * i }
  function AfterJob(i: nat): nat { 2 * i + 1 }

  // ---- the meaning of a pass ----

  /** How many jobs start: those whose look beforehand finds the context alive. */
  function Started(total: nat, cancelAt: nat): nat {
    if (cancelAt + 1) / 2 < total then (cancelAt + 1) / 2 else total
  }

  ghost function Outcomes(jobs: seq<JobEnv>, cancelAt: nat): seq<Outcome> {
    seq(Started(|jobs|, cancelAt), i requires 0 <= i < |jobs| => OutcomeOf(jobs[i], CancelledAt(cancelAt, AfterJob(i))))
  }

  function Count(outcomes: seq<Outcome>, kind: Outcome): nat {
    if outcomes == [] then 0
    else Count(outcomes[..|outcomes| - 1], kind) + (if outcomes[|outcomes| - 1] == kind then 1 else 0)
  }

  ghost function PassOf(jobs: seq<JobEnv>, cancelAt: nat): PassResult {
    var outs := Outcomes(jobs, cancelAt);
    PassResult(|jobs|, Count(outs, Skipped) + Count(outs, Succeeded), Count(outs, Skipped), Count(outs, Failed),
               |outs| < |jobs| || Count(outs, Interrupted) > 0)
  }

  // ---- the code ----

  method RunPass(jobs: seq<JobEnv>, cancelAt: nat) returns (res: PassResult)
    ensures res == PassOf(jobs, cancelAt)
  {
    res := PassResult(|jobs|, 0, 0, 0, false);
    ghost var outs := Outcomes(jobs, cancelAt);
    for i := 0 to |jobs|
      invariant i <= |outs|
      invariant res == PassResult(|jobs|, Count(outs[..i], Skipped) + Count(outs[..i], Succeeded),
                                  Count(outs[..i], Skipped), Count(outs[..i], Failed),
                                  Count(outs[..i], Interrupted) > 0)
    {
      if CancelledAt(cancelAt, BeforeJob(i)) {
        assert outs[..i] == outs;
        res := res.(interrupted := true);
        return;
      }
      assert outs[..i + 1][..i] == outs[..i];
      var jr := RunJob(jobs[i], CancelledAt(cancelAt, AfterJob(i)));
      if jr.skipped {
        res := res.(emptySkipped := res.emptySkipped + 1, ok := res.ok + 1);
      } else if jr.success {
        res := res.(ok := res.ok + 1);
      } else if jr.interrupted {
        res := res.(interrupted := true);
      } else {
        res := res.(failed := res.failed + 1);
      }
    }
    assert outs[..|jobs|] == outs;
  }

  // ---- what follows ----

  lemma {:induction false} CountsAddUp(outs: seq<Outcome>)
    ensures Count(outs, Skipped) + Count(outs, Succeeded) + Count(outs, Failed) + Count(outs, Interrupted) == |outs|
  {
    if outs != [] {
      CountsAddUp(outs[..|outs| - 1]);
    }
  }

  lemma {:induction false} CountPositive(outs: seq<Outcome>, kind: Outcome) returns (i: nat)
    requires Count(outs, kind) > 0
    ensures i < |outs| && outs[i] == kind
  {
    var n := |outs| - 1;
    if outs[n] == kind {
      i := n;
    } else {
      i := CountPositive(outs[..n], kind);
    }
  }

  lemma {:induction false} CountAll(outs: seq<Outcome>, kind: Outcome)
    ensures Count(outs, kind) == 0 <==> kind !in outs
  {
    if outs != [] {
      var n := |outs| - 1;
      CountAll(outs[..n], kind);
      assert outs == outs[..n] + [outs[n]];
    }
  }

  lemma {:induction false} CountIsMultiplicity(outs: seq<Outcome>, kind: Outcome)
    ensures Count(outs, kind) == multiset(outs)[kind]
  {
    if outs != [] {
      var n := |outs| - 1;
      CountIsMultiplicity(outs[..n], kind);
      assert outs == outs[..n] + [outs[n]];
    }
  }

  /** The pass in plain terms. Job i starts iff the shutdown had not landed by look 2i; it is judged
      under the shutdown as look 2i + 1 finds it; and the tally counts the outcomes by kind. */
  lemma {:induction false} PassMeans(jobs: seq<JobEnv>, cancelAt: nat)
    ensures var outs := Outcomes(jobs, cancelAt);
            && |outs| <= |jobs|
            && (forall i :: 0 <= i < |jobs| ==> (i < |outs| <==> 2 * i < cancelAt))
            && (forall i :: 0 <= i < |outs| ==> outs[i] == OutcomeOf(jobs[i], cancelAt <= 2 * i + 1))
    ensures var outs, r := Outcomes(jobs, cancelAt), PassOf(jobs, cancelAt);
            && r.total == |jobs|
            && r.ok == multiset(outs)[Skipped] + multiset(outs)[Succeeded]
            && r.emptySkipped == multiset(outs)[Skipped] && r.failed == multiset(outs)[Failed]
            && (r.interrupted <==> |outs| < |jobs| || Interrupted in outs)
  {
    var outs := Outcomes(jobs, cancelAt);
    CountIsMultiplicity(outs, Skipped);
    CountIsMultiplicity(outs, Succeeded);
    CountIsMultiplicity(outs, Failed);
    CountAll(outs, Interrupted);
  }

  /** An interrupted job is the last one started, so there is at most one. */
  lemma {:induction false} OnlyTheLastIsInterrupted(jobs: seq<JobEnv>, cancelAt: nat, i: nat)
    requires i < |Outcomes(jobs, cancelAt)| && Outcomes(jobs, cancelAt)[i] == Interrupted
    ensures i == |Outcomes(jobs, cancelAt)| - 1
  {
  }

  lemma {:induction false} LoneInterrupt(outs: seq<Outcome>)
    requires forall i :: 0 <= i < |outs| && outs[i] == Interrupted ==> i == |outs| - 1
    ensures Count(outs, Interrupted) <= 1
  {
    if outs != [] {
      CountAll(outs[..|outs| - 1], Interrupted);
    }
  }

  /** The ledger of a pass, for every job list and every cancellation point. */
  lemma {:induction false} PassLedger(jobs: seq<JobEnv>, cancelAt: nat)
    ensures var r := PassOf(jobs, cancelAt);
            && r.total == |jobs|
            && r.emptySkipped <= r.ok
            && r.ok + r.failed <= |Outcomes(jobs, cancelAt)| <= r.total
            && |Outcomes(jobs, cancelAt)| - 1 <= r.ok + r.failed
            && (r.interrupted <==> r.ok + r.failed < r.total)
  {
    var outs := Outcomes(jobs, cancelAt);
    CountsAddUp(outs);
    forall i | 0 <= i < |outs| && outs[i] == Interrupted
      ensures i == |outs| - 1
    {
      OnlyTheLastIsInterrupted(jobs, cancelAt, i);
    }
    LoneInterrupt(outs);
  }

  /** A pass that publishes success ran every configured job to success; one that publishes
      nothing was cut short without a failure. */
  lemma {:induction false} VerdictMeans(jobs: seq<JobEnv>, cancelAt: nat)
    ensures var r := PassOf(jobs, cancelAt);
            && (r.Vouchable() && r.Healthy() <==> r.ok == r.total)
            && (!r.Vouchable() <==> r.interrupted && r.failed == 0)
    ensures var r := PassOf(jobs, cancelAt); r.ok == r.total ==>
              forall i :: 0 <= i < |jobs| ==>
                var o := OutcomeOf(jobs[i], CancelledAt(cancelAt, AfterJob(i))); o == Skipped || o == Succeeded
  {
    PassLedger(jobs, cancelAt);
    var r := PassOf(jobs, cancelAt);
    if r.ok == r.total {
      var outs := Outcomes(jobs, cancelAt);
      CountsAddUp(outs);
      CountAll(outs, Failed);
      CountAll(outs, Interrupted);
      forall i | 0 <= i < |jobs|
        ensures var o := OutcomeOf(jobs[i], CancelledAt(cancelAt, AfterJob(i))); o == Skipped || o == Succeeded
      {
        assert outs[i] in outs;
      }
    }
  }

  /** Without a shutdown every job starts, and the pass is healthy iff none failed. */
  lemma {:induction false} UndisturbedPass(jobs: seq<JobEnv>, cancelAt: nat)
    requires cancelAt >= 2 * |jobs|
    ensures var r := PassOf(jobs, cancelAt);
            && |Outcomes(jobs, cancelAt)| == r.total && r.Vouchable() && !r.interrupted
            && (r.Healthy() <==> Failed !in Outcomes(jobs, cancelAt))
  {
    PassLedger(jobs, cancelAt);
    var outs := Outcomes(jobs, cancelAt);
    CountAll(outs, Failed);
    CountAll(outs, Interrupted);
  }
}
