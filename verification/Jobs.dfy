/** One sync job: how the source scan, rsync's exit, its stderr and the two contexts decide
    the outcome. What the operating system reports enters as the record `Run`. */
module JobRun {
  import opened Streams
  import opened StderrTail

  const VANISHED_EXIT := 24
  const SIGNAL_EXIT := 20

  /** What sourceIsEmpty found. */
  datatype SourceScan = ScanFailed | EmptySource | Populated

  datatype CtxErr = NoErr | Canceled | DeadlineExceeded

  /** The error of cmd.Run, as far as errors.Is looks at it. */
  datatype RunErr = Clean | ContextCanceled | OtherError

  /** cmd.ProcessState: absent if no child ran; a signalled child reports -1. */
  datatype ProcessState = NoProcess | Exited(code: int)

  datatype Run = Run(err: RunErr, ps: ProcessState, jobErr: CtxErr, cancelSent: bool, stderr: seq<string>)

  datatype JobEnv = JobEnv(source: SourceScan, run: Run)

  datatype JobResult = JobResult(stderrTail: string, exitCode: int, skipped: bool, success: bool, interrupted: bool)

  datatype Outcome = Skipped | Succeeded | Interrupted | Failed

  // ---- the meaning of a job ----

  /** os/exec returns no error only for a child that ran and exited 0. */
  predicate ExecContract(run: Run) {
    run.err == Clean ==> run.ps == Exited(0)
  }

  /** The transfer completed: exit 0, or exit 24 with no max-delete line anywhere on stderr. */
  ghost predicate Completed(run: Run) {
    || run.err == Clean
    || run.ps == Exited(0)
    || (run.ps == Exited(VANISHED_EXIT) && !HasWarningLine(Flatten(run.stderr)))
  }

  /** This app stopped the job while draining: either the start was refused on a cancelled
      context, or the child died of a signal this app sent. */
  predicate StoppedByDrain(run: Run, parentCancelled: bool) {
    && parentCancelled
    && run.jobErr != DeadlineExceeded
    && match run.ps
       case NoProcess => run.err == ContextCanceled
       case Exited(code) => (code < 0 || code == SIGNAL_EXIT) && run.cancelSent
  }

  ghost function OutcomeOf(env: JobEnv, parentCancelled: bool): Outcome {
    match env.source
    case ScanFailed => Failed
    case EmptySource => Skipped
    case Populated =>
      if Completed(env.run) then Succeeded
      else if StoppedByDrain(env.run, parentCancelled) then Interrupted
      else Failed
  }

  /** The four outcomes as the result's flags. */
  ghost predicate Flags(res: JobResult, o: Outcome) {
    && (res.skipped <==> o == Skipped)
    && (res.success <==> o == Skipped || o == Succeeded)
    && (res.interrupted <==> o == Interrupted)
  }

  // ---- the code ----

  method InterruptedByShutdown(parentCancelled: bool, run: Run) returns (r: bool)
    ensures r <==> StoppedByDrain(run, parentCancelled)
  {
    if run.jobErr == DeadlineExceeded || !parentCancelled {
      return false;
    }
    if run.ps == NoProcess {
      return run.err == ContextCanceled;
    }
    var exitCode := run.ps.code;
    return (exitCode < 0 || exitCode == SIGNAL_EXIT) && run.cancelSent;
  }

  method RunJob(env: JobEnv, parentCancelled: bool) returns (res: JobResult)
    ensures Flags(res, OutcomeOf(env, parentCancelled))
    // an unreadable source fails, an empty one is skipped and counts as success
    ensures res.skipped <==> env.source.EmptySource?
    ensures res.success <==>
            || env.source.EmptySource?
            || (env.source.Populated? &&
                (|| env.run.err.Clean?
                 || env.run.ps == Exited(0)
                 || (env.run.ps == Exited(24) && !HasWarningLine(Flatten(env.run.stderr)))))
    // interrupted: this app refused the start, or signalled the child that died of it
    ensures res.interrupted <==>
            && env.source.Populated? && !res.success
            && parentCancelled && env.run.jobErr != DeadlineExceeded
            && (|| (env.run.ps.NoProcess? && env.run.err.ContextCanceled?)
                || (env.run.ps.Exited? && (env.run.ps.code < 0 || env.run.ps.code == 20) && env.run.cancelSent))
    ensures env.source != Populated ==> res.stderrTail == "" && res.exitCode == 0
    ensures env.source == Populated ==> res.stderrTail == TailOf(Flatten(env.run.stderr), 2048)
    ensures env.source == Populated ==>
              res.exitCode == (match env.run.ps
                               case Exited(code) => code
                               case NoProcess => if env.run.err == Clean then 0 else -1)
    // a capped deletion, which rsync reports as 25, or as 24 if a file also vanished
    ensures env.source == Populated && ExecContract(env.run) && env.run.ps == Exited(25) ==>
              !res.success && !res.interrupted
    ensures env.source == Populated && ExecContract(env.run) && env.run.ps == Exited(VANISHED_EXIT) ==>
              !res.interrupted && (res.success <==> !HasWarningLine(Flatten(env.run.stderr)))
  {
    res := JobResult("", 0, false, false, false);
    if env.source == ScanFailed {
      return;
    }
    if env.source == EmptySource {
      res := res.(skipped := true, success := true);
      return;
    }
    var run := env.run;
    var stderrAll, delLimited := CaptureStderr(run.stderr, OUTPUT_CAP);
    if run.ps != NoProcess {
      res := res.(exitCode := run.ps.code);
    }
    var logged := Tail(stderrAll, LOG_TAIL);
    LoggedTailIgnoresCap(Flatten(run.stderr));
    res := res.(stderrTail := logged);
    if run.err == Clean {
      res := res.(success := true);
      return;
    }
    if run.ps == NoProcess {
      res := res.(exitCode := -1);
    }
    var drained := InterruptedByShutdown(parentCancelled, run);
    if run.ps == NoProcess {
    } else if run.ps.code == 0 {
      res := res.(success := true);
      return;
    } else if res.exitCode == VANISHED_EXIT && !delLimited {
      res := res.(success := true);
      return;
    }
    if drained {
      res := res.(interrupted := true);
      return;
    }
  }

  // ---- what follows ----

  /** A job past its own deadline is never counted as drained. It fails iff rsync's report is
      neither exit 0 nor exit 24 without a max-delete line. */
  lemma {:induction false} DeadlineIsNotDrain(env: JobEnv, parentCancelled: bool)
    requires env.source == Populated && ExecContract(env.run) && env.run.jobErr == DeadlineExceeded
    ensures OutcomeOf(env, parentCancelled) != Interrupted
    ensures OutcomeOf(env, parentCancelled) == Failed <==>
            && env.run.ps != Exited(0)
            && (env.run.ps == Exited(VANISHED_EXIT) ==> HasWarningLine(Flatten(env.run.stderr)))
  {
  }

  /** Two runs that pass their deadline and succeed: rsync still reported 0, or it reported 24
      and printed no max-delete line. */
  lemma {:induction false} DeadlineCanSucceed()
    ensures OutcomeOf(JobEnv(Populated, Run(OtherError, Exited(0), DeadlineExceeded, true, [])), false) == Succeeded
    ensures OutcomeOf(JobEnv(Populated, Run(OtherError, Exited(VANISHED_EXIT), DeadlineExceeded, true, [])), false)
         == Succeeded
  {
    WarningIsOneLine();
    WatchIsExact(DEL_LIMIT_WARN, "");
    assert Flatten([]) == "";
  }
}
