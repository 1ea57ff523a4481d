/** The executor's side of the daemon: the code of `run`, `applyPassHealth` and
    `recordScheduled` on the fields it updates, shown to take only steps of the machine. */
module Executor {
  import opened Options
  import opened JobRun
  import opened PassRun
  import opened Daemon

  /** How stamp.Record and, if it failed, os.Remove turned out. A file that is not there counts
      as removed. */
  datatype StampIO = Lands(time: int) | Fails(res: Residue, removed: bool)

  /** What the trigger's waiter is told. */
  datatype Reply = Reply(ok: bool, reason: string)

  const CUT_SHORT := "pass cut short by shutdown; remaining jobs did not run"
  const RELOAD_FAILED := "config reload failed"

  /** Where in a request the main goroutine begins the drain, if it does so during it. A point
      that the request does not come to is a drain after it. */
  datatype DrainPoint = NoDrain | DuringPass | AfterVerdict | AfterWrite

  function DrainIf(begins: bool): seq<Event> { if begins then [BeginDrain] else [] }

  function RecordSteps(io: StampIO, drain: DrainPoint): seq<Event> {
    match io
    case Lands(time) => [WriteLands(time)]
    case Fails(res, removed) =>
      [WriteFails(res)] + (DrainIf(drain.AfterWrite?) + [if removed then RemoveDone else RemoveFails])
  }

  /** The machine steps of one request: `jobs` is absent when the config failed to reload. */
  ghost function Steps(trig: Trigger, jobs: Option<seq<JobEnv>>, cancelAt: nat, io: StampIO, drain: DrainPoint)
    : seq<Event>
  {
    var (verdict, recorded) :=
      match jobs
      case None => (ReloadFails, Scheduled(trig))
      case Some(js) => (PassEnds(js, cancelAt), Scheduled(trig) && PassOf(js, cancelAt).Vouchable());
    DrainIf(drain.DuringPass?) +
    ([verdict] + (DrainIf(drain.AfterVerdict?) + (if recorded then RecordSteps(io, drain) else [])))
  }

  /** The run is legal from s and ends in s'. */
  ghost predicate Leads(s: State, run: seq<Event>, s': State) {
    Legal(s, run) && After(s, run) == s'
  }

  lemma {:induction false} LeadsNowhere(s: State)
    ensures Leads(s, [], s)
  {
  }

  lemma {:induction false} LeadsOn(s: State, a: seq<Event>, t: State, b: seq<Event>, u: State)
    requires Leads(s, a, t) && Leads(t, b, u)
    ensures Leads(s, a + b, u)
  {
    RunAppend(s, a, b);
  }

  lemma {:induction false} LeadsOne(s: State, e: Event)
    requires Enabled(s, e)
    ensures Leads(s, [e], Next(s, e))
  {
    LegalStep(s, e, []);
    assert [e] + [] == [e];
  }

  class Executor {
    const mode: Mode
    const startupDue: bool
    const due: int
    var marker: bool
    var draining: bool
    var rec: Record
    ghost var log: seq<Entry>

    /** The machine state this object stands for, at a given point inside `run`. */
    ghost function At(phase: Phase): State
      reads this
    {
      State(Up(mode, draining, startupDue, due, phase), marker, rec, log)
    }

    /** What runDaemon builds after the boot checks: the record as found, the marker by plan. */
    constructor (mode: Mode, found: Record, now: int, rewritable: bool, ghost before: State)
      requires before.proc.Down? && before.rec == found
      ensures At(Idle) == Next(before, Boot(mode, now, rewritable))
    {
      var plan := PlanBoot(mode, found, now, rewritable);
      this.mode := mode;
      startupDue := plan.startupDue;
      due := now + plan.remaining;
      marker := plan.healthy;
      draining := false;
      rec := found;
      log := before.log;
    }

    /** Latch.Set. */
    method SetHealth(ok: bool)
      modifies this`marker
      ensures forall phase :: At(phase) == Latched(old(At(phase)), ok)
    {
      marker := ok && !draining;
    }

    /** Latch.BeginDrain. */
    method StartDrain()
      modifies this`marker, this`draining
      ensures forall phase :: At(phase) == Next(old(At(phase)), BeginDrain)
    {
      draining := true;
      marker := false;
    }

    /** A point at which the main goroutine may run. */
    method Interleave(begins: bool)
      modifies this`marker, this`draining
      ensures forall phase :: Leads(old(At(phase)), DrainIf(begins), At(phase))
    {
      if begins {
        StartDrain();
        forall phase ensures Leads(old(At(phase)), [BeginDrain], At(phase)) {
          LeadsOne(old(At(phase)), BeginDrain);
        }
      } else {
        forall phase ensures Leads(At(phase), [], At(phase)) {
          LeadsNowhere(At(phase));
        }
      }
    }

    method ApplyPassHealth(res: PassResult)
      modifies this`marker
      ensures forall phase ::
                At(phase) == if res.Vouchable() then Latched(old(At(phase)), res.Healthy()) else old(At(phase))
    {
      if res.Vouchable() {
        SetHealth(res.Healthy());
      }
    }

    /** stamp.Record failed: the record is removed if possible. */
    method RemoveStale(ghost v: Verdict, res: Residue, removed: bool, drain: DrainPoint)
      modifies this`marker, this`draining, this`rec, this`log
      ensures Leads(old(At(Removing(v, res))),
                    DrainIf(drain.AfterWrite?) + [if removed then RemoveDone else RemoveFails], At(Idle))
    {
      ghost var s := At(Removing(v, res));
      Interleave(drain.AfterWrite?);
      ghost var t := At(Removing(v, res));
      if removed {
        rec := Absent;
        log := log + [Entry(v, Removed)];
        LeadsOne(t, RemoveDone);
      } else {
        log := log + [Entry(v, Kept(res))];
        LeadsOne(t, RemoveFails);
      }
      LeadsOn(s, DrainIf(drain.AfterWrite?), t, [if removed then RemoveDone else RemoveFails], At(Idle));
    }

    method RecordScheduled(trig: Trigger, ghost v: Verdict, ok: bool, io: StampIO, drain: DrainPoint)
      requires v.ok == ok
      modifies this`marker, this`draining, this`rec, this`log
      ensures !Scheduled(trig) ==> At(Idle) == old(At(Idle))
      ensures Scheduled(trig) ==> Leads(old(At(Recording(v))), RecordSteps(io, drain), At(Idle))
    {
      if trig != Startup && trig != Interval {
        return;
      }
      ghost var s := At(Recording(v));
      match io {
        case Lands(time) =>
          rec := Recorded(ok, time);
          log := log + [Entry(v, Landed(time))];
          LeadsOne(s, WriteLands(time));
        case Fails(res, removed) =>
          rec := Leave(rec, ok, res);
          ghost var t := At(Removing(v, res));
          LeadsOne(s, WriteFails(res));
          RemoveStale(v, res, removed, drain);
          LeadsOn(s, [WriteFails(res)], t,
                  DrainIf(drain.AfterWrite?) + [if removed then RemoveDone else RemoveFails], At(Idle));
      }
    }

    /** What follows the verdict: `s` is the machine's state right after it. */
    method Settle(trig: Trigger, ghost v: Verdict, ok: bool, vouchable: bool, io: StampIO, drain: DrainPoint,
                  ghost s: State)
      requires v.ok == ok
      requires s == At(if vouchable && Scheduled(trig) then Recording(v) else Idle)
      modifies this`marker, this`draining, this`rec, this`log
      ensures Leads(s, DrainIf(drain.AfterVerdict?) +
                       (if vouchable && Scheduled(trig) then RecordSteps(io, drain) else []), At(Idle))
    {
      Interleave(drain.AfterVerdict?);
      ghost var t := At(if vouchable && Scheduled(trig) then Recording(v) else Idle);
      if vouchable {
        RecordScheduled(trig, v, ok, io, drain);
      }
      if !(vouchable && Scheduled(trig)) {
        LeadsNowhere(t);
      }
      LeadsOn(s, DrainIf(drain.AfterVerdict?), t,
              if vouchable && Scheduled(trig) then RecordSteps(io, drain) else [], At(Idle));
    }

    /** The arm of `run` for a config that failed to reload. */
    method FailReload(trig: Trigger, io: StampIO, drain: DrainPoint)
      modifies this`marker, this`draining, this`rec, this`log
      ensures Leads(old(At(Running(trig))), Steps(trig, None, 0, io, drain), At(Idle))
    {
      ghost var s := At(Running(trig));
      Interleave(drain.DuringPass?);
      ghost var t := At(Running(trig));
      SetHealth(false);
      ghost var v := Verdict(false, None);
      ghost var u := Next(t, ReloadFails);
      LeadsOne(t, ReloadFails);
      Settle(trig, v, false, true, io, drain, u);
      ghost var rest := DrainIf(drain.AfterVerdict?) + (if Scheduled(trig) then RecordSteps(io, drain) else []);
      LeadsOn(t, [ReloadFails], u, rest, At(Idle));
      LeadsOn(s, DrainIf(drain.DuringPass?), t, [ReloadFails] + rest, At(Idle));
    }

    /** The arm of `run` for a pass that ran: publish, then record. */
    method Conclude(trig: Trigger, ghost js: seq<JobEnv>, ghost cancelAt: nat, res: PassResult, io: StampIO,
                    drain: DrainPoint)
      requires res == PassOf(js, cancelAt)
      modifies this`marker, this`draining, this`rec, this`log
      ensures Leads(old(At(Running(trig))), Steps(trig, Some(js), cancelAt, io, drain), At(Idle))
    {
      ghost var s := At(Running(trig));
      Interleave(drain.DuringPass?);
      ghost var t := At(Running(trig));
      ApplyPassHealth(res);
      ghost var v := Verdict(res.Healthy(), Some(res));
      ghost var u := Next(t, PassEnds(js, cancelAt));
      LeadsOne(t, PassEnds(js, cancelAt));
      Settle(trig, v, res.Healthy(), res.Vouchable(), io, drain, u);
      ghost var rest := DrainIf(drain.AfterVerdict?) +
                        (if res.Vouchable() && Scheduled(trig) then RecordSteps(io, drain) else []);
      LeadsOn(t, [PassEnds(js, cancelAt)], u, rest, At(Idle));
      LeadsOn(s, DrainIf(drain.DuringPass?), t, [PassEnds(js, cancelAt)] + rest, At(Idle));
    }

    /** One request, from the queue to the reply, with a drain that may begin at any point of it:
        exactly the machine's steps. The ticker submits only in built-in mode, a startup request
        only if one is due, and none before the first one is due; outside requests come any time. */
    method Run(trig: Trigger, at: int, jobs: Option<seq<JobEnv>>, cancelAt: nat, io: StampIO, drain: DrainPoint)
      returns (reply: Reply)
      requires trig != Triggered ==> mode.Builtin? && at >= due && (trig == Startup ==> startupDue)
      modifies this`marker, this`draining, this`rec, this`log
      ensures Leads(old(At(Idle)), [Begin(trig, at)] + Steps(trig, jobs, cancelAt, io, drain), At(Idle))
      ensures reply.ok <==> jobs.Some? && PassOf(jobs.value, cancelAt).failed == 0
      ensures reply.reason == if jobs.None? then RELOAD_FAILED
                              else if reply.ok && PassOf(jobs.value, cancelAt).ok < |jobs.value| then CUT_SHORT else ""
    {
      ghost var s, t := At(Idle), At(Running(trig));
      LeadsOne(s, Begin(trig, at));
      if jobs.None? {
        FailReload(trig, io, drain);
        reply := Reply(false, RELOAD_FAILED);
      } else {
        var res := RunPass(jobs.value, cancelAt);
        Conclude(trig, jobs.value, cancelAt, res, io, drain);
        PassLedger(jobs.value, cancelAt);
        reply := Reply(res.Healthy(), "");
        if reply.ok && res.interrupted {
          reply := Reply(true, CUT_SHORT);
        }
      }
      LeadsOn(s, [Begin(trig, at)], t, Steps(trig, jobs, cancelAt, io, drain), At(Idle));
    }
  }
}
