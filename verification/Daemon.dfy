/** The daemon across restarts: boot decision, passes, health marker, drain latch and the
    last-run record on disk, as a state machine whose steps may fail or be cut off anywhere.

    Times are integers on the wall clock, which may be set back between boots. */
module Daemon {
  import opened Options
  import opened JobRun
  import opened PassRun

  // ---- the last-run record ----

  datatype Record = Absent | Unreadable | Recorded(ok: bool, time: int)

  /** Stamp.Remaining with the retry-failed policy: 0 is "due". A record from the future is
      fresh until the clock catches up, but never delays the first pass beyond one interval. */
  function Remaining(rec: Record, interval: nat, now: int): (r: nat)
    ensures r <= interval
    ensures r > 0 ==> rec.Recorded? && rec.ok && now - rec.time < interval
  {
    if rec.Recorded? && rec.ok && now - rec.time < interval then
      if now < rec.time then interval else rec.time + interval - now
    else 0
  }

  datatype Mode = Builtin(interval: nat) | External

  datatype Plan = Plan(healthy: bool, startupDue: bool, remaining: nat)

  /** The boot decision. */
  method PlanBoot(mode: Mode, rec: Record, now: int, rewritable: bool) returns (plan: Plan)
    ensures plan == PlanOf(mode, rec, now, rewritable)
  {
    var remaining: nat := 0;
    if mode.Builtin? {
      remaining := Remaining(rec, mode.interval, now);
    }
    if remaining > 0 && !rewritable {
      remaining := 0;
    }
    var startupDue := remaining == 0;
    plan := Plan(!mode.Builtin? || !startupDue, startupDue, remaining);
  }

  /** A fresh success stands in for the startup pass only in built-in mode and only if the
      record can be replaced. */
  ghost predicate Stands(mode: Mode, rec: Record, now: int, rewritable: bool) {
    mode.Builtin? && rewritable && rec.Recorded? && rec.ok && now - rec.time < mode.interval && mode.interval > 0
  }

  ghost function PlanOf(mode: Mode, rec: Record, now: int, rewritable: bool): Plan {
    if Stands(mode, rec, now, rewritable)
    then Plan(true, false, if now < rec.time then mode.interval else rec.time + mode.interval - now)
    else Plan(mode.External?, true, 0)
  }

  // ---- the machine ----

  datatype Trigger = Startup | Interval | Triggered

  predicate Scheduled(trig: Trigger) { trig != Triggered }

  /** What a pass concluded: no result at all when its config could not be reloaded. */
  datatype Verdict = Verdict(ok: bool, pass: Option<PassResult>)

  /** What a write of the record that did not succeed leaves on disk: the old content, no file,
      a torn one, or the complete new line under an error reported too late. */
  datatype Residue = Untouched | Gone | Torn | Complete(time: int)

  function Leave(rec: Record, ok: bool, res: Residue): Record {
    match res
    case Untouched => rec
    case Gone => Absent
    case Torn => Unreadable
    case Complete(time) => Recorded(ok, time)
  }

  /** Where the executor stands inside `run`. */
  datatype Phase =
    | Idle
    | Running(trig: Trigger)
    | Recording(v: Verdict)                // health is set, stamp.Record under way
    | Removing(v: Verdict, res: Residue)   // the write failed, os.Remove under way

  datatype Proc = Down | Up(mode: Mode, draining: bool, startupDue: bool, due: int, phase: Phase)

  /** How one call of recordScheduled ended. Kept is the double failure; CutShort is a call that
      the process did not survive. */
  datatype Ending = Landed(time: int) | Removed | Kept(res: Residue) | CutShort(res: Residue)

  datatype Entry = Entry(v: Verdict, ending: Ending)

  /** `log` lists the calls of recordScheduled over all boots; the daemon does not store it. */
  datatype State = State(proc: Proc, marker: bool, rec: Record, log: seq<Entry>)

  const INITIAL := State(Down, false, Absent, [])

  datatype Event =
    | Boot(mode: Mode, now: int, rewritable: bool)
    | BootFails
    | Begin(trig: Trigger, at: int)
    | ReloadFails
    | PassEnds(jobs: seq<JobEnv>, cancelAt: nat)
    | WriteLands(time: int)
    | WriteFails(res: Residue)
    | RemoveDone
    | RemoveFails
    | BeginDrain
    | Exit
    | Stop(res: Residue)

  predicate InPass(s: State) { s.proc.Up? && s.proc.phase.Running? }
  predicate InWrite(s: State) { s.proc.Up? && s.proc.phase.Recording? }
  predicate InRemove(s: State) { s.proc.Up? && s.proc.phase.Removing? }

  predicate Enabled(s: State, e: Event) {
    match e
    case Boot(_, _, _) => s.proc.Down?
    case BootFails => s.proc.Down?
    case Begin(trig, at) =>
      s.proc.Up? && s.proc.phase.Idle? &&
      (Scheduled(trig) ==> s.proc.mode.Builtin? && at >= s.proc.due && (trig.Startup? ==> s.proc.startupDue))
    case ReloadFails => InPass(s)
    case PassEnds(_, _) => InPass(s)
    case WriteLands(_) => InWrite(s)
    case WriteFails(_) => InWrite(s)
    case RemoveDone => InRemove(s)
    case RemoveFails => InRemove(s)
    case BeginDrain => s.proc.Up?
    case Exit => s.proc.Up? && s.proc.draining && s.proc.phase.Idle?
    case Stop(res) =>
      s.proc.Up? &&
      match s.proc.phase
      case Recording(_) => true
      case Removing(_, left) => res == left || res == Gone
      case _ => res == Untouched
  }

  /** The latch: a verdict reaches the marker, except that nothing is healthy once draining. */
  function Latched(s: State, ok: bool): State
    requires s.proc.Up?
  {
    s.(marker := ok && !s.proc.draining)
  }

  function InPhase(s: State, phase: Phase): State
    requires s.proc.Up?
  {
    s.(proc := s.proc.(phase := phase))
  }

  /** recordScheduled returns. */
  function Returned(s: State, rec: Record, ending: Ending): State
    requires InWrite(s) || InRemove(s)
  {
    InPhase(s, Idle).(rec := rec, log := s.log + [Entry(s.proc.phase.v, ending)])
  }

  /** `run` has a verdict: the marker is set, and a scheduled pass goes on to record it. */
  function Published(s: State, v: Verdict): State
    requires InPass(s)
  {
    InPhase(Latched(s, v.ok), if Scheduled(s.proc.phase.trig) then Recording(v) else Idle)
  }

  ghost function Next(s: State, e: Event): State
    requires Enabled(s, e)
  {
    match e
    case Boot(mode, now, rewritable) =>
      var plan := PlanOf(mode, s.rec, now, rewritable);
      s.(proc := Up(mode, false, plan.startupDue, now + plan.remaining, Idle), marker := plan.healthy)
    case BootFails => s.(marker := false)
    case Begin(trig, _) => InPhase(s, Running(trig))
    case ReloadFails => Published(s, Verdict(false, None))
    case PassEnds(jobs, cancelAt) =>
      var r := PassOf(jobs, cancelAt);
      if r.Vouchable() then Published(s, Verdict(r.Healthy(), Some(r))) else InPhase(s, Idle)
    case WriteLands(time) => Returned(s, Recorded(s.proc.phase.v.ok, time), Landed(time))
    case WriteFails(res) =>
      InPhase(s, Removing(s.proc.phase.v, res)).(rec := Leave(s.rec, s.proc.phase.v.ok, res))
    case RemoveDone => Returned(s, Absent, Removed)
    case RemoveFails => Returned(s, s.rec, Kept(s.proc.phase.res))
    case BeginDrain => s.(proc := s.proc.(draining := true), marker := false)
    case Exit => s.(proc := Down, marker := false)
    case Stop(res) =>
      if InWrite(s) || InRemove(s) then
        var v := s.proc.phase.v;
        s.(proc := Down, rec := Leave(s.rec, v.ok, res), log := s.log + [Entry(v, CutShort(res))])
      else s.(proc := Down)
  }

  /** Every step of the run is possible where it is taken. */
  ghost predicate Legal(s: State, run: seq<Event>)
    decreases |run|
  {
    run == [] || (Enabled(s, run[0]) && Legal(Next(s, run[0]), run[1..]))
  }

  ghost function After(s: State, run: seq<Event>): State
    requires Legal(s, run)
    decreases |run|
  {
    if run == [] then s else After(Next(s, run[0]), run[1..])
  }

  // ---- health ----

  /** The verdict that an event gives on the daemon's health, if any: a boot gives its plan's, a
      failed reload or boot gives false, and a pass gives its own if it is vouchable. */
  ghost function Says(s: State, e: Event): Option<bool> {
    match e
    case Boot(mode, now, rewritable) => Some(PlanOf(mode, s.rec, now, rewritable).healthy)
    case BootFails => Some(false)
    case ReloadFails => Some(false)
    case PassEnds(jobs, cancelAt) =>
      var r := PassOf(jobs, cancelAt); if r.Vouchable() then Some(r.Healthy()) else None
    case _ => None
  }

  /** The last verdict given in the run, `v` if there is none. */
  ghost function LastSaid(s: State, run: seq<Event>, v: bool): bool
    requires Legal(s, run)
    decreases |run|
  {
    if run == [] then v
    else LastSaid(Next(s, run[0]), run[1..], match Says(s, run[0]) case Some(b) => b case None => v)
  }

  /** Whether a drain has begun since the last boot in the run, `d` if there is no boot. */
  ghost function DrainBegun(run: seq<Event>, d: bool): bool
    decreases |run|
  {
    if run == [] then d
    else DrainBegun(run[1..], match run[0] case Boot(_, _, _) => false case BeginDrain => true case _ => d)
  }

  /** In every state that any run reaches, the marker is the last verdict that a boot, a vouchable
      pass, or a failed reload or boot gave, until the daemon's drain begins, and is not healthy
      from then until another boot. This holds of the file that a daemon leaves behind too: one
      that is killed leaves its verdict, one that exits or fails to boot leaves unhealthy. */
  lemma {:induction false} MarkerAlwaysHonest(s: State, run: seq<Event>, v: bool, d: bool)
    requires Legal(s, run)
    requires s.marker == (v && !d) && (s.proc.Up? ==> s.proc.draining == d)
    ensures var s' := After(s, run);
            && s'.marker == (LastSaid(s, run, v) && !DrainBegun(run, d))
            && (s'.proc.Up? ==> s'.proc.draining == DrainBegun(run, d))
    decreases |run|
  {
    if run != [] {
      var v' := match Says(s, run[0]) case Some(b) => b case None => v;
      var d' := match run[0] case Boot(_, _, _) => false case BeginDrain => true case _ => d;
      MarkerAlwaysHonest(Next(s, run[0]), run[1..], v', d');
    }
  }

  /** The state in which event i of the run is taken. */
  ghost function Before(s: State, run: seq<Event>, i: nat): State
    requires Legal(s, run) && i < |run|
    decreases i
  {
    if i == 0 then s else Before(Next(s, run[0]), run[1..], i - 1)
  }

  /** Event i gives verdict b, and no later event gives one. */
  ghost predicate Settles(s: State, run: seq<Event>, i: nat, b: bool)
    requires Legal(s, run)
  {
    && i < |run| && Says(Before(s, run, i), run[i]) == Some(b)
    && (forall j :: i < j < |run| ==> Says(Before(s, run, j), run[j]) == None)
  }

  lemma {:induction false} SettlesLater(s: State, run: seq<Event>, i: nat, b: bool)
    requires Legal(s, run) && run != [] && Settles(Next(s, run[0]), run[1..], i, b)
    ensures Settles(s, run, i + 1, b)
  {
    forall j | i + 1 < j < |run|
      ensures Says(Before(s, run, j), run[j]) == None
    {
      assert Says(Before(Next(s, run[0]), run[1..], j - 1), run[1..][j - 1]) == None;
    }
  }

  /** A live daemon was booted in the run, so some event of the run settled its health. */
  lemma {:induction false} SomeEventSettles(s: State, run: seq<Event>, v: bool) returns (i: nat)
    requires Legal(s, run)
    ensures Settles(s, run, i, LastSaid(s, run, v)) || (LastSaid(s, run, v) == v && NobodySays(s, run))
    decreases |run|
  {
    i := 0;
    if run != [] {
      var t, rest := Next(s, run[0]), run[1..];
      var v' := match Says(s, run[0]) case Some(b) => b case None => v;
      var k := SomeEventSettles(t, rest, v');
      if Settles(t, rest, k, LastSaid(t, rest, v')) {
        SettlesLater(s, run, k, LastSaid(t, rest, v'));
        i := k + 1;
      } else {
        forall j | 0 < j < |run|
          ensures Says(Before(s, run, j), run[j]) == None
        {
          assert Says(Before(t, rest, j - 1), rest[j - 1]) == None;
        }
      }
    }
  }

  ghost predicate NobodySays(s: State, run: seq<Event>)
    requires Legal(s, run)
  {
    forall j :: 0 <= j < |run| ==> Says(Before(s, run, j), run[j]) == None
  }

  /** What can make a daemon healthy: an external boot, a built-in boot on a record that stands,
      or a pass in which every configured job succeeded. */
  ghost predicate Earns(s: State, e: Event) {
    match e
    case Boot(mode, now, rewritable) => mode.External? || Stands(mode, s.rec, now, rewritable)
    case PassEnds(jobs, cancelAt) => PassOf(jobs, cancelAt).ok == |jobs|
    case _ => false
  }

  /** With no process up, the first event is a boot, and every boot gives a verdict. */
  lemma {:induction false} DownUntilSaid(s: State, run: seq<Event>)
    requires s.proc.Down? && Legal(s, run) && NobodySays(s, run)
    ensures run == []
  {
  }

  /** Over every run from the first boot on, whether a daemon is up or not: the marker is healthy
      iff no drain has begun since the last boot and the event that settled its health earned it.
      A live daemon has such an event. */
  lemma {:induction false} HealthyMarkerIsEarned(run: seq<Event>) returns (i: nat)
    requires Legal(INITIAL, run)
    ensures After(INITIAL, run).marker <==>
            && i < |run| && !DrainBegun(run, false) && Earns(Before(INITIAL, run, i), run[i])
    ensures i < |run| ==> exists b :: Settles(INITIAL, run, i, b)
    ensures After(INITIAL, run).proc.Up? ==> i < |run|
  {
    MarkerAlwaysHonest(INITIAL, run, false, false);
    i := SomeEventSettles(INITIAL, run, false);
    var b := LastSaid(INITIAL, run, false);
    if Settles(INITIAL, run, i, b) {
      if run[i].PassEnds? {
        VerdictMeans(run[i].jobs, run[i].cancelAt);
      }
    } else {
      DownUntilSaid(INITIAL, run);
      i := |run|;
    }
  }

  /** A failed boot leaves the marker unhealthy, whatever a killed daemon left there; so does an
      exit. The next daemon's verdict is the first to change that. */
  lemma {:induction false} DownAfterExitIsUnhealthy(s: State, e: Event, run: seq<Event>)
    requires e == BootFails || e == Exit
    requires Enabled(s, e) && Legal(Next(s, e), run)
    requires forall i :: 0 <= i < |run| ==> !run[i].Boot?
    ensures After(Next(s, e), run).proc.Down? && !After(Next(s, e), run).marker
  {
    StaysDown(Next(s, e), run);
  }

  lemma {:induction false} StaysDown(s: State, run: seq<Event>)
    requires s.proc.Down? && Legal(s, run)
    requires forall i :: 0 <= i < |run| ==> !run[i].Boot?
    ensures After(s, run).proc.Down? && (After(s, run).marker ==> s.marker)
    decreases |run|
  {
    if run != [] {
      assert !run[0].Boot?;
      assert forall i :: 0 <= i < |run[1..]| ==> run[1..][i] == run[i + 1];
      StaysDown(Next(s, run[0]), run[1..]);
    }
  }

  /** No scheduled pass is under way or being recorded. */
  predicate Unscheduled(s: State) {
    s.proc.Up? ==> s.proc.phase == Idle || s.proc.phase == Running(Triggered)
  }

  predicate NoScheduledPass(run: seq<Event>) {
    forall i :: 0 <= i < |run| && run[i].Begin? ==> run[i].trig == Triggered
  }

  lemma {:induction false} NoScheduledTail(run: seq<Event>)
    requires run != [] && NoScheduledPass(run)
    ensures NoScheduledPass(run[1..]) && (run[0].Begin? ==> run[0].trig == Triggered)
  {
    assert forall i :: 0 <= i < |run[1..]| ==> run[1..][i] == run[i + 1];
  }

  /** Triggered passes never touch the record: over any run without a scheduled pass, with any
      boots, reload failures, drains and stops, the record and its log stay as they are. */
  lemma {:induction false} TriggeredRunKeepsRecord(s: State, run: seq<Event>)
    requires Unscheduled(s) && Legal(s, run) && NoScheduledPass(run)
    ensures After(s, run).rec == s.rec && After(s, run).log == s.log && Unscheduled(After(s, run))
    decreases |run|
  {
    if run != [] {
      NoScheduledTail(run);
      TriggeredRunKeepsRecord(Next(s, run[0]), run[1..]);
    }
  }

  /** In external mode nothing is scheduled, so no run of external boots writes a record. */
  lemma {:induction false} ExternalModeNeverRecords(s: State, run: seq<Event>)
    requires s.proc.Up? ==> s.proc.mode.External?
    requires Unscheduled(s) && Legal(s, run)
    requires forall i :: 0 <= i < |run| && run[i].Boot? ==> run[i].mode.External?
    ensures After(s, run).rec == s.rec && After(s, run).log == s.log
    decreases |run|
  {
    if run != [] {
      assert forall i :: 0 <= i < |run[1..]| ==> run[1..][i] == run[i + 1];
      ExternalModeNeverRecords(Next(s, run[0]), run[1..]);
    }
  }

  /** An interrupted-clean pass leaves marker, record and log alone, whoever triggered it. */
  lemma {:induction false} CleanInterruptionWritesNothing(s: State, jobs: seq<JobEnv>, cancelAt: nat)
    requires Enabled(s, PassEnds(jobs, cancelAt))
    ensures PassOf(jobs, cancelAt).ok + PassOf(jobs, cancelAt).failed < |jobs| && PassOf(jobs, cancelAt).failed == 0 ==>
              Next(s, PassEnds(jobs, cancelAt)) == InPhase(s, Idle)
    ensures PassOf(jobs, cancelAt).ok == |jobs| ==> Next(s, PassEnds(jobs, cancelAt)).marker == !s.proc.draining
    ensures PassOf(jobs, cancelAt).failed > 0 ==> !Next(s, PassEnds(jobs, cancelAt)).marker
  {
    PassLedger(jobs, cancelAt);
    VerdictMeans(jobs, cancelAt);
  }

  // ---- the record ----

  /** A verdict is a success exactly when it is the verdict of a pass in which every configured
      job succeeded. */
  predicate VerdictHonest(v: Verdict) {
    v.ok <==> v.pass.Some? && v.pass.value.ok == v.pass.value.total
  }

  /** What a call that ended this way did to the disk; a write that landed is complete. */
  function Effect(ending: Ending): Residue {
    match ending
    case Landed(time) => Complete(time)
    case Removed => Gone
    case Kept(res) => res
    case CutShort(res) => res
  }

  /** The disk as the log explains it. */
  ghost function Replay(log: seq<Entry>): Record {
    if log == [] then Absent
    else
      var last := log[|log| - 1];
      Leave(Replay(log[..|log| - 1]), last.v.ok, Effect(last.ending))
  }

  ghost predicate RecordExplained(s: State) {
    && s.rec == (if InRemove(s) then Leave(Replay(s.log), s.proc.phase.v.ok, s.proc.phase.res) else Replay(s.log))
    && (forall k :: 0 <= k < |s.log| ==> VerdictHonest(s.log[k].v))
    && (InWrite(s) || InRemove(s) ==> VerdictHonest(s.proc.phase.v))
  }

  /** A call that ends explains the disk that it leaves. */
  lemma {:induction false} EntryExplains(log: seq<Entry>, v: Verdict, ending: Ending)
    requires VerdictHonest(v) && (forall k :: 0 <= k < |log| ==> VerdictHonest(log[k].v))
    ensures Replay(log + [Entry(v, ending)]) == Leave(Replay(log), v.ok, Effect(ending))
    ensures forall k :: 0 <= k < |log + [Entry(v, ending)]| ==> VerdictHonest((log + [Entry(v, ending)])[k].v)
  {
    assert (log + [Entry(v, ending)])[..|log|] == log;
  }

  /** A call that returns, or dies with the process, and leaves the disk that its ending says. */
  lemma {:induction false} EndExplained(s: State, s': State, ending: Ending)
    requires RecordExplained(s) && (InWrite(s) || InRemove(s))
    requires s'.log == s.log + [Entry(s.proc.phase.v, ending)] && (s'.proc.Up? ==> s'.proc.phase.Idle?)
    requires s'.rec == Leave(Replay(s.log), s.proc.phase.v.ok, Effect(ending))
    ensures RecordExplained(s')
  {
    EntryExplains(s.log, s.proc.phase.v, ending);
  }

  lemma {:induction false} PassExplained(s: State, jobs: seq<JobEnv>, cancelAt: nat)
    requires RecordExplained(s) && Enabled(s, PassEnds(jobs, cancelAt))
    ensures RecordExplained(Next(s, PassEnds(jobs, cancelAt)))
  {
    VerdictMeans(jobs, cancelAt);
  }

  lemma {:induction false} StepExplained(s: State, e: Event)
    requires RecordExplained(s) && Enabled(s, e)
    ensures RecordExplained(Next(s, e))
  {
    match e
    case PassEnds(jobs, cancelAt) =>
      PassExplained(s, jobs, cancelAt);
    case WriteLands(time) =>
      EndExplained(s, Next(s, e), Landed(time));
    case RemoveDone =>
      EndExplained(s, Next(s, e), Removed);
    case RemoveFails =>
      EndExplained(s, Next(s, e), Kept(s.proc.phase.res));
    case Stop(res) =>
      if InWrite(s) || InRemove(s) {
        EndExplained(s, Next(s, e), CutShort(res));
      }
    case _ =>
  }

  /** Over every run, the disk is what the log of recordScheduled calls explains. */
  lemma {:induction false} RunExplained(s: State, run: seq<Event>)
    requires RecordExplained(s) && Legal(s, run)
    ensures RecordExplained(After(s, run))
    decreases |run|
  {
    if run != [] {
      StepExplained(s, run[0]);
      RunExplained(Next(s, run[0]), run[1..]);
    }
  }

  /** Entry e put its verdict on disk at `time`. */
  predicate Wrote(e: Entry, time: int) { Effect(e.ending) == Complete(time) }

  /** A call that left the disk as it found it. */
  predicate LeftAlone(e: Entry) { Effect(e.ending) == Untouched }

  /** A readable record is the verdict of one scheduled pass, and no later call of
      recordScheduled touched the disk. */
  lemma {:induction false} RecordHasAuthor(log: seq<Entry>) returns (k: nat)
    requires Replay(log).Recorded?
    ensures k < |log| && log[k].v.ok == Replay(log).ok && Wrote(log[k], Replay(log).time)
    ensures forall l :: k < l < |log| ==> LeftAlone(log[l])
  {
    var n := |log| - 1;
    if LeftAlone(log[n]) {
      k := RecordHasAuthor(log[..n]);
    } else {
      k := n;
    }
  }

  /** recordScheduled returned, as opposed to dying with the process. */
  predicate CameBack(e: Entry) { !e.ending.CutShort? }

  /** Some call since entry k failed both to write and to remove. */
  ghost predicate DoubleFailureSince(log: seq<Entry>, k: nat) {
    exists l :: k < l < |log| && log[l].ending.Kept?
  }

  /** Entry k is the latest call of recordScheduled that returned. */
  ghost predicate LatestReturned(log: seq<Entry>, k: nat) {
    k < |log| && CameBack(log[k]) && forall l :: k < l < |log| ==> !CameBack(log[l])
  }

  /** The record and the calls, over any number of boots, passes, stops and write failures: on
      disk there is nothing, something unreadable, or the verdict of a scheduled pass that no
      later call overwrote. It is the latest pass whose recordScheduled returned exactly when
      that pass's own call returned and no call since failed both to write and to remove. */
  lemma {:induction false} RecordIsLatestVerdict(run: seq<Event>) returns (k: nat)
    requires Legal(INITIAL, run)
    ensures var s := After(INITIAL, run);
            !InRemove(s) && s.rec.Recorded? ==>
              && k < |s.log|
              && s.log[k].v.ok == s.rec.ok && VerdictHonest(s.log[k].v) && Wrote(s.log[k], s.rec.time)
              && (forall l :: k < l < |s.log| ==> LeftAlone(s.log[l]))
              && (LatestReturned(s.log, k) <==> CameBack(s.log[k]) && !DoubleFailureSince(s.log, k))
  {
    RunExplained(INITIAL, run);
    var s := After(INITIAL, run);
    if !InRemove(s) && s.rec.Recorded? {
      k := RecordHasAuthor(s.log);
    } else {
      k := 0;
    }
  }

  // ---- the record and the last scheduled pass ----

  predicate UnderWay(s: State) { InWrite(s) || InRemove(s) }

  /** Event e is the verdict of a scheduled pass. */
  ghost predicate Concludes(s: State, e: Event) {
    InPass(s) && Scheduled(s.proc.phase.trig) && Says(s, e).Some?
  }

  /** The verdicts of the run's scheduled passes, in order. */
  ghost function Spoken(s: State, run: seq<Event>): seq<bool>
    requires Legal(s, run)
    decreases |run|
  {
    if run == [] then []
    else (if Concludes(s, run[0]) then [Says(s, run[0]).value] else []) + Spoken(Next(s, run[0]), run[1..])
  }

  /** What the recording of the last scheduled verdict has done to the disk, given `r` before
      event e: nothing at the verdict, then whatever the write, the removal or a stop did. */
  ghost function Touch(s: State, e: Event, r: Residue): Residue {
    match e
    case ReloadFails => if Concludes(s, e) then Untouched else r
    case PassEnds(_, _) => if Concludes(s, e) then Untouched else r
    case WriteLands(time) => Complete(time)
    case WriteFails(res) => res
    case RemoveDone => Gone
    case Stop(res) => if UnderWay(s) then res else r
    case _ => r
  }

  ghost function LastTouch(s: State, run: seq<Event>, r: Residue): Residue
    requires Legal(s, run)
    decreases |run|
  {
    if run == [] then r else LastTouch(Next(s, run[0]), run[1..], Touch(s, run[0], r))
  }

  /** The log lists the verdicts spoken so far, less one that is still being recorded, and `r`
      is what the last of them did to the disk. */
  ghost predicate Told(s: State, said: seq<bool>, r: Residue) {
    && |said| == |s.log| + (if UnderWay(s) then 1 else 0)
    && (forall k :: 0 <= k < |s.log| ==> said[k] == s.log[k].v.ok)
    && (UnderWay(s) ==> said[|s.log|] == s.proc.phase.v.ok)
    && r == (if InWrite(s) then Untouched
             else if InRemove(s) then s.proc.phase.res
             else if s.log == [] then Untouched
             else Effect(s.log[|s.log| - 1].ending))
  }

  lemma {:induction false} StepTold(s: State, e: Event, said: seq<bool>, r: Residue)
    requires Told(s, said, r) && Enabled(s, e)
    ensures Told(Next(s, e), said + (if Concludes(s, e) then [Says(s, e).value] else []), Touch(s, e, r))
  {
  }

  lemma {:induction false} RunTold(s: State, run: seq<Event>, said: seq<bool>, r: Residue)
    requires Legal(s, run) && Told(s, said, r)
    ensures Told(After(s, run), said + Spoken(s, run), LastTouch(s, run, r))
    decreases |run|
  {
    if run == [] {
      assert said + [] == said;
    } else {
      var more := if Concludes(s, run[0]) then [Says(s, run[0]).value] else [];
      StepTold(s, run[0], said, r);
      RunTold(Next(s, run[0]), run[1..], said + more, Touch(s, run[0], r));
      assert said + (more + Spoken(Next(s, run[0]), run[1..])) == said + more + Spoken(Next(s, run[0]), run[1..]);
    }
  }

  /** The record is what scheduled pass k put on disk: a call that ended, or one that has
      completed its line and is now removing it. */
  ghost predicate WrittenBy(s: State, k: nat)
    requires s.rec.Recorded?
  {
    if k < |s.log| then Wrote(s.log[k], s.rec.time)
    else k == |s.log| && InRemove(s) && s.proc.phase.res == Complete(s.rec.time)
  }

  /** A readable record is the verdict of scheduled pass k. It is the last one that reached a
      verdict exactly if that pass's own line is complete on disk; and it is an earlier one
      exactly if the last pass has not touched the disk at all. */
  ghost predicate DiskTells(s: State, said: seq<bool>, touch: Residue, k: nat) {
    && (s.rec.Recorded? ==>
          && k < |said| && said[k] == s.rec.ok && WrittenBy(s, k)
          && (forall l :: k < l < |s.log| ==> LeftAlone(s.log[l]))
          && (k == |said| - 1 <==> touch.Complete?)
          && (k < |said| - 1 <==> touch.Untouched?))
    && (touch.Complete? ==> said != [] && s.rec == Recorded(said[|said| - 1], touch.time))
    && (touch.Gone? ==> s.rec.Absent?)
    && (touch.Torn? ==> s.rec.Unreadable?)
  }

  lemma {:induction false} ToldOnDisk(s: State, said: seq<bool>, touch: Residue) returns (k: nat)
    requires RecordExplained(s) && Told(s, said, touch)
    ensures DiskTells(s, said, touch, k)
  {
    k := |s.log|;
    if Replay(s.log).Recorded? && !(InRemove(s) && touch.Complete?) {
      k := RecordHasAuthor(s.log);
    }
  }

  /** The documented law and exactly when it holds, in every state of every run, recordings under
      way included. */
  lemma {:induction false} RecordIsLastPass(run: seq<Event>) returns (k: nat)
    requires Legal(INITIAL, run)
    ensures DiskTells(After(INITIAL, run), Spoken(INITIAL, run), LastTouch(INITIAL, run, Untouched), k)
  {
    RunExplained(INITIAL, run);
    RunTold(INITIAL, run, [], Untouched);
    assert [] + Spoken(INITIAL, run) == Spoken(INITIAL, run);
    k := ToldOnDisk(After(INITIAL, run), Spoken(INITIAL, run), LastTouch(INITIAL, run, Untouched));
  }

  /** What a record that reads as a success stands for while no process is up: scheduled pass k,
      in which every job succeeded and after which no call touched the disk. That pass is the last
      scheduled one exactly if the last one's own line is complete on disk. */
  ghost predicate SuccessOf(s: State, said: seq<bool>, touch: Residue, k: nat) {
    && s.rec.Recorded? && k < |s.log| == |said| && Wrote(s.log[k], s.rec.time)
    && s.log[k].v.pass.Some? && s.log[k].v.pass.value.ok == s.log[k].v.pass.value.total
    && (forall l :: k < l < |s.log| ==> LeftAlone(s.log[l]))
    && (k == |said| - 1 <==> touch.Complete?)
  }

  lemma {:induction false} SuccessHasPass(s: State, said: seq<bool>, touch: Residue) returns (k: nat)
    requires RecordExplained(s) && Told(s, said, touch) && s.proc.Down?
    ensures s.rec.Recorded? && s.rec.ok ==> SuccessOf(s, said, touch, k)
  {
    k := ToldOnDisk(s, said, touch);
  }

  /** A boot that skips its startup pass, or any built-in boot that starts healthy, stands on a
      scheduled pass in which every job succeeded, less than one interval old, with a record the
      daemon can replace. */
  lemma {:induction false} HealthyBootIsEarned(run: seq<Event>, mode: Mode, now: int, rewritable: bool) returns (k: nat)
    requires Legal(INITIAL, run) && After(INITIAL, run).proc.Down? && mode.Builtin?
    ensures var s := After(INITIAL, run);
            var s' := Next(s, Boot(mode, now, rewritable));
            && (s'.marker <==> !s'.proc.startupDue)
            && (s'.marker ==>
                  && rewritable && s.rec.Recorded? && now - s.rec.time < mode.interval
                  && SuccessOf(s, Spoken(INITIAL, run), LastTouch(INITIAL, run, Untouched), k))
  {
    RunExplained(INITIAL, run);
    RunTold(INITIAL, run, [], Untouched);
    assert [] + Spoken(INITIAL, run) == Spoken(INITIAL, run);
    k := SuccessHasPass(After(INITIAL, run), Spoken(INITIAL, run), LastTouch(INITIAL, run, Untouched));
  }

  /** The exceptions are real. A job whose source is empty gives a successful pass. */
  function OkPass(run: Run): Event { PassEnds([JobEnv(EmptySource, run)], 2) }

  lemma {:induction false} OkPassSucceeds(run: Run)
    ensures PassOf([JobEnv(EmptySource, run)], 2) == PassResult(1, 1, 1, 0, false)
  {
    var outs := Outcomes([JobEnv(EmptySource, run)], 2);
    assert outs == [Skipped];
    assert outs[..0] == [];
    assert Count(outs, Skipped) == 1;
    assert Count(outs, Succeeded) == 0;
    assert Count(outs, Failed) == 0;
    assert Count(outs, Interrupted) == 0;
  }

  lemma {:induction false} LegalStep(s: State, e: Event, rest: seq<Event>)
    requires Enabled(s, e) && Legal(Next(s, e), rest)
    ensures Legal(s, [e] + rest) && After(s, [e] + rest) == After(Next(s, e), rest)
  {
  }

  const SUCCESS := Verdict(true, Some(PassResult(1, 1, 1, 0, false)))

  /** A first boot at time 0, its startup pass under way. */
  const STARTUP_RUNNING := State(Up(Builtin(10), false, true, 0, Running(Startup)), false, Absent, [])

  /** That pass succeeded and is recorded at time 1. */
  const RECORDED_ONCE :=
    State(Up(Builtin(10), false, true, 0, Idle), true, Recorded(true, 1), [Entry(SUCCESS, Landed(1))])

  /** The next scheduled pass fails to reload its config and is about to be recorded. */
  const SECOND_VERDICT :=
    State(Up(Builtin(10), false, true, 0, Recording(Verdict(false, None))), false, Recorded(true, 1),
          [Entry(SUCCESS, Landed(1))])

  function Prelude(run: Run): seq<Event> {
    [Boot(Builtin(10), 0, true), Begin(Startup, 0)] + [OkPass(run), WriteLands(1)] + [Begin(Interval, 11), ReloadFails]
  }

  lemma {:induction false} RunAppend(s: State, a: seq<Event>, b: seq<Event>)
    requires Legal(s, a) && Legal(After(s, a), b)
    ensures Legal(s, a + b) && After(s, a + b) == After(After(s, a), b)
    decreases |a|
  {
    if a == [] {
      assert a + b == b;
    } else {
      RunAppend(Next(s, a[0]), a[1..], b);
      LegalStep(s, a[0], a[1..] + b);
      assert [a[0]] + (a[1..] + b) == a + b;
    }
  }

  lemma {:induction false} TwoSteps(s: State, e: Event, f: Event)
    requires Enabled(s, e) && Enabled(Next(s, e), f)
    ensures Legal(s, [e, f]) && After(s, [e, f]) == Next(Next(s, e), f)
  {
    LegalStep(Next(s, e), f, []);
    LegalStep(s, e, [f] + []);
    assert [e] + ([f] + []) == [e, f];
  }

  lemma {:induction false} BootReaches()
    ensures Legal(INITIAL, [Boot(Builtin(10), 0, true), Begin(Startup, 0)])
    ensures After(INITIAL, [Boot(Builtin(10), 0, true), Begin(Startup, 0)]) == STARTUP_RUNNING
  {
  }

  lemma {:induction false} OkPassReaches(run: Run)
    ensures Legal(STARTUP_RUNNING, [OkPass(run), WriteLands(1)])
    ensures After(STARTUP_RUNNING, [OkPass(run), WriteLands(1)]) == RECORDED_ONCE
  {
    OkPassSucceeds(run);
    assert [] + [Entry(SUCCESS, Landed(1))] == [Entry(SUCCESS, Landed(1))];
    TwoSteps(STARTUP_RUNNING, OkPass(run), WriteLands(1));
  }

  lemma {:induction false} ReloadReaches()
    ensures Legal(RECORDED_ONCE, [Begin(Interval, 11), ReloadFails])
    ensures After(RECORDED_ONCE, [Begin(Interval, 11), ReloadFails]) == SECOND_VERDICT
  {
  }

  lemma {:induction false} Through(s: State, a: seq<Event>, b: seq<Event>, c: seq<Event>, rest: seq<Event>)
    requires Legal(s, a) && Legal(After(s, a), b) && Legal(After(After(s, a), b), c)
    requires Legal(After(After(After(s, a), b), c), rest)
    ensures Legal(s, a + b + c + rest)
    ensures After(s, a + b + c + rest) == After(After(After(After(s, a), b), c), rest)
  {
    RunAppend(s, a, b);
    RunAppend(s, a + b, c);
    RunAppend(s, a + b + c, rest);
  }

  lemma {:induction false} PreludeReaches(run: Run, rest: seq<Event>)
    requires Legal(SECOND_VERDICT, rest)
    ensures Legal(INITIAL, Prelude(run) + rest)
    ensures After(INITIAL, Prelude(run) + rest) == After(SECOND_VERDICT, rest)
  {
    BootReaches();
    OkPassReaches(run);
    ReloadReaches();
    Through(INITIAL, [Boot(Builtin(10), 0, true), Begin(Startup, 0)], [OkPass(run), WriteLands(1)],
            [Begin(Interval, 11), ReloadFails], rest);
  }

  /** A process that stops inside the write can leave the old content, nothing, a torn file, or
      the complete new line. */
  lemma {:induction false} StopDuringWrite(run: Run, res: Residue)
    ensures Legal(INITIAL, Prelude(run) + [Stop(res)])
    ensures var s := After(INITIAL, Prelude(run) + [Stop(res)]);
            && s.proc.Down? && s.log == [Entry(SUCCESS, Landed(1)), Entry(Verdict(false, None), CutShort(res))]
            && (match res
                case Untouched => s.rec == Recorded(true, 1)
                case Gone => s.rec == Absent
                case Torn => s.rec == Unreadable
                case Complete(time) => s.rec == Recorded(false, time))
  {
    LegalStep(SECOND_VERDICT, Stop(res), []);
    assert [Stop(res)] + [] == [Stop(res)];
    PreludeReaches(run, [Stop(res)]);
  }

  /** A process that stops inside the removal leaves what the failed write left, or no file. */
  lemma {:induction false} StopDuringRemoval(run: Run, left: Residue, removed: bool)
    ensures var res := if removed then Gone else left;
            && Legal(INITIAL, Prelude(run) + [WriteFails(left), Stop(res)])
            && After(INITIAL, Prelude(run) + [WriteFails(left), Stop(res)]).rec == Leave(Recorded(true, 1), false, res)
  {
    var res := if removed then Gone else left;
    TwoSteps(SECOND_VERDICT, WriteFails(left), Stop(res));
    PreludeReaches(run, [WriteFails(left), Stop(res)]);
  }

  /** The process stops after the second verdict's bytes are complete: the disk holds the last
      pass's verdict, although the latest recordScheduled that returned is the first one. */
  lemma {:induction false} LateStopOutrunsReturn(run: Run)
    ensures Legal(INITIAL, Prelude(run) + [Stop(Complete(12))])
    ensures var s := After(INITIAL, Prelude(run) + [Stop(Complete(12))]);
            s.rec == Recorded(false, 12) && LatestReturned(s.log, 0) && !Wrote(s.log[0], 12)
  {
    StopDuringWrite(run, Complete(12));
  }

  /** The process stops between the second verdict and its write: the next boot trusts the older
      success, skips its startup pass and starts healthy although the last pass failed. That
      success is still the latest verdict whose recordScheduled returned. */
  lemma {:induction false} EarlyStopKeepsStaleSuccess(run: Run)
    ensures Legal(INITIAL, Prelude(run) + [Stop(Untouched)])
    ensures var s := After(INITIAL, Prelude(run) + [Stop(Untouched)]);
            && s.rec == Recorded(true, 1) && LatestReturned(s.log, 0) && |s.log| == 2 && !s.log[1].v.ok
            && s.proc.Down? && Next(s, Boot(Builtin(15), 12, true)).marker
  {
    StopDuringWrite(run, Untouched);
  }

  const DOUBLE_FAILURE: seq<Event> := [WriteFails(Untouched), RemoveFails] + [Stop(Untouched)]

  const STALE_SUCCESS :=
    State(Down, false, Recorded(true, 1), [Entry(SUCCESS, Landed(1)), Entry(Verdict(false, None), Kept(Untouched))])

  lemma {:induction false} DoubleFailureReaches()
    ensures Legal(SECOND_VERDICT, DOUBLE_FAILURE) && After(SECOND_VERDICT, DOUBLE_FAILURE) == STALE_SUCCESS
  {
    TwoSteps(SECOND_VERDICT, WriteFails(Untouched), RemoveFails);
    var s2 := After(SECOND_VERDICT, [WriteFails(Untouched), RemoveFails]);
    LegalStep(s2, Stop(Untouched), []);
    assert [Stop(Untouched)] + [] == [Stop(Untouched)];
    RunAppend(SECOND_VERDICT, [WriteFails(Untouched), RemoveFails], [Stop(Untouched)]);
  }

  /** Write and removal both fail: the next boot trusts the older success, skips its startup
      pass and starts healthy although the latest pass failed. */
  lemma {:induction false} DoubleFailureKeepsStaleSuccess(run: Run)
    ensures Legal(INITIAL, Prelude(run) + DOUBLE_FAILURE)
    ensures var s := After(INITIAL, Prelude(run) + DOUBLE_FAILURE);
            && s.rec == Recorded(true, 1) && LatestReturned(s.log, 1) && !s.log[1].v.ok
            && s.proc.Down? && Next(s, Boot(Builtin(15), 12, true)).marker
  {
    DoubleFailureReaches();
    PreludeReaches(run, DOUBLE_FAILURE);
  }

  // ---- restarts keep the schedule ----

  /** A built-in boot with interval `iv` that can replace the record and happens less than one
      interval after `t`, or before `t` if the clock was set back. */
  predicate InWindow(e: Event, iv: nat, t: int)
    requires e.Boot?
  {
    iv > 0 && e.mode == Builtin(iv) && e.rewritable && e.now < t + iv
  }

  predicate BootsInWindow(run: seq<Event>, iv: nat, t: int) {
    forall i :: 0 <= i < |run| && run[i].Boot? ==> InWindow(run[i], iv, t)
  }

  predicate HasBoot(run: seq<Event>) {
    exists i :: 0 <= i < |run| && run[i].Boot?
  }

  /** When a boot at `now` has its first scheduled pass due, after a success recorded at t: one
      interval after that success, or after the boot if the record is from the future. */
  function DueFrom(now: int, t: int, iv: nat): int { (if now < t then now else t) + iv }

  /** The due moment set by the last boot of the run, `due` if there is none. */
  function LastDue(run: seq<Event>, iv: nat, t: int, due: int): int
    decreases |run|
  {
    if run == [] then due
    else LastDue(run[1..], iv, t, if run[0].Boot? then DueFrom(run[0].now, t, iv) else due)
  }

  /** The success at t is on disk and nothing scheduled is under way; a process booted since
      then waits for `due`. */
  ghost predicate OnSchedule(s: State, iv: nat, t: int, due: int, booted: bool) {
    && s.rec == Recorded(true, t)
    && Unscheduled(s)
    && (s.proc.Up? && booted ==> s.proc.mode == Builtin(iv) && !s.proc.startupDue && s.proc.due == due)
  }

  lemma {:induction false} StepOnSchedule(s: State, e: Event, iv: nat, t: int, due: int, booted: bool)
    requires OnSchedule(s, iv, t, due, booted) && Enabled(s, e)
    requires e.Boot? ==> InWindow(e, iv, t)
    requires e.Begin? ==> e.trig == Triggered
    ensures OnSchedule(Next(s, e), iv, t, if e.Boot? then DueFrom(e.now, t, iv) else due, booted || e.Boot?)
  {
  }

  lemma {:induction false} RunOnSchedule(s: State, run: seq<Event>, iv: nat, t: int, due: int, booted: bool)
    requires OnSchedule(s, iv, t, due, booted) && Legal(s, run)
    requires BootsInWindow(run, iv, t) && NoScheduledPass(run)
    ensures OnSchedule(After(s, run), iv, t, LastDue(run, iv, t, due), booted || HasBoot(run))
    decreases |run|
  {
    if run != [] {
      var e := run[0];
      assert e.Boot? ==> InWindow(e, iv, t);
      StepOnSchedule(s, e, iv, t, due, booted);
      WindowTail(run, iv, t);
      NoScheduledTail(run);
      RunOnSchedule(Next(s, e), run[1..], iv, t, if e.Boot? then DueFrom(e.now, t, iv) else due, booted || e.Boot?);
    }
  }

  lemma {:induction false} WindowTail(run: seq<Event>, iv: nat, t: int)
    requires run != [] && BootsInWindow(run, iv, t)
    ensures BootsInWindow(run[1..], iv, t) && (HasBoot(run) <==> run[0].Boot? || HasBoot(run[1..]))
  {
    assert forall i :: 0 <= i < |run[1..]| ==> run[1..][i] == run[i + 1];
    if HasBoot(run) && !run[0].Boot? {
      var i :| 0 <= i < |run| && run[i].Boot?;
      assert run[1..][i - 1].Boot?;
    }
  }

  /** A clock that is never set back behind t leaves the due moment at t + iv. */
  lemma {:induction false} SteadyClockKeepsDue(run: seq<Event>, iv: nat, t: int)
    requires forall i :: 0 <= i < |run| && run[i].Boot? ==> run[i].now >= t
    ensures LastDue(run, iv, t, t + iv) == t + iv
    decreases |run|
  {
    if run != [] {
      assert forall i :: 0 <= i < |run[1..]| ==> run[1..][i] == run[i + 1];
      SteadyClockKeepsDue(run[1..], iv, t);
    }
  }

  /** Nothing scheduled can begin before `due`, and an interval pass can from then on. */
  ghost predicate FirstPassAt(s: State, due: int) {
    && (forall at :: !Enabled(s, Begin(Startup, at)))
    && (forall at :: Enabled(s, Begin(Interval, at)) <==> s.proc.Up? && s.proc.phase.Idle? && at >= due)
  }

  /** Restarts keep the schedule. From the moment a success is recorded at t, any number of
      triggered passes, drains, stops, failed boots and reboots inside the interval, with no
      scheduled pass among them, leave the first scheduled pass at t + interval: a process booted
      since then can begin it from exactly t + interval on and has no startup pass, and if there
      is no live process, any boot within the interval starts healthy with the same schedule.
      Only a boot with a clock set back behind t counts its interval from the boot instead. */
  lemma {:induction false} RestartsKeepPhase(s: State, run: seq<Event>, iv: nat, t: int)
    requires s.rec == Recorded(true, t) && Unscheduled(s) && Legal(s, run)
    requires BootsInWindow(run, iv, t) && NoScheduledPass(run)
    ensures After(s, run).rec == Recorded(true, t)
    ensures After(s, run).proc.Up? && HasBoot(run) ==> FirstPassAt(After(s, run), LastDue(run, iv, t, t + iv))
    ensures (forall i :: 0 <= i < |run| && run[i].Boot? ==> run[i].now >= t) ==> LastDue(run, iv, t, t + iv) == t + iv
    ensures After(s, run).proc.Down? ==> forall now :: InWindow(Boot(Builtin(iv), now, true), iv, t) ==>
              var s' := Next(After(s, run), Boot(Builtin(iv), now, true));
              s'.marker && s'.proc.Up? && s'.proc.phase.Idle? && FirstPassAt(s', DueFrom(now, t, iv))
  {
    RunOnSchedule(s, run, iv, t, t + iv, false);
    if forall i :: 0 <= i < |run| && run[i].Boot? ==> run[i].now >= t {
      SteadyClockKeepsDue(run, iv, t);
    }
  }

  /** The law starts right at the recording step of a successful scheduled pass. */
  lemma {:induction false} RecordedSuccessStarts(s: State, t: int)
    requires InWrite(s) && s.proc.phase.v.ok
    ensures var s' := Next(s, WriteLands(t)); s'.rec == Recorded(true, t) && Unscheduled(s')
  {
  }

  /** A record that is missing, unreadable, failed, too old or not replaceable always gives a
      built-in boot its startup pass at once. */
  lemma {:induction false} DueRecordRunsAtBoot(s: State, iv: nat, now: int, rewritable: bool)
    requires s.proc.Down?
    ensures var s' := Next(s, Boot(Builtin(iv), now, rewritable));
            (s'.proc.startupDue && s'.proc.due == now && !s'.marker && Enabled(s', Begin(Startup, now))) <==>
            (iv == 0 || !rewritable || !s.rec.Recorded? || !s.rec.ok || s.rec.time + iv <= now)
  {
  }
}
