/** The healthcheck's freshness deadline against the daemon's own timing: ticker, request queue
    and executor as a timed machine in which every pass is clean and refreshes the marker.

    Time moves only in `Elapse`, and never past the moment at which something has to happen: a
    pass ends within its longest duration, a free executor takes a waiting request at once, and
    the ticker fires at most one interval after its previous tick resolved. */
module FreshnessLease {

  const QUEUE_CAPACITY: nat := 16

  /** `overrun` bounds how much longer than its timeout one job can take to be gone. */
  datatype Config = Config(interval: nat, jobs: nat, timeout: nat, overrun: nat) {
    /** The longest pass. */
    function PassMax(): nat { jobs * timeout + jobs * overrun }

    /** The probe's deadline: two intervals plus every job's timeout. */
    function Lease(): nat { 2 * interval + jobs * timeout }
  }

  datatype Ticker = Sleeping(until: int) | Waiting

  datatype Exec = Free | Busy(tick: bool, started: int)

  /** A queued request is `true` if the ticker submitted it. */
  datatype State = State(now: int, queue: seq<bool>, exec: Exec, ticker: Ticker, refreshed: int) {
    function Age(): int { now - refreshed }
  }

  datatype Event = Elapse(d: nat) | Submit | Tick | Start | Finish

  /** Boot writes the marker; the first tick is `remaining` away, at once if a pass is due. */
  function Booted(at: int, remaining: nat): State {
    State(at, [], Free, Sleeping(at + remaining), at)
  }

  predicate Enabled(c: Config, s: State, e: Event) {
    match e
    case Elapse(d) =>
      && (s.exec.Busy? ==> s.now + d <= s.exec.started + c.PassMax())
      && (s.exec.Free? && s.queue != [] ==> d == 0)
      && (s.ticker.Sleeping? ==> s.now + d <= s.ticker.until)
    case Submit => true
    case Tick => s.ticker.Sleeping?
    case Start => s.exec.Free? && s.queue != []
    case Finish => s.exec.Busy?
  }

  function Next(c: Config, s: State, e: Event): State
    requires Enabled(c, s, e)
  {
    match e
    case Elapse(d) => s.(now := s.now + d)
    case Submit => if |s.queue| >= QUEUE_CAPACITY then s else s.(queue := s.queue + [false])
    case Tick =>
      if |s.queue| >= QUEUE_CAPACITY then s.(ticker := Sleeping(s.now + c.interval))
      else s.(queue := s.queue + [true], ticker := Waiting)
    case Start => s.(queue := s.queue[1..], exec := Busy(s.queue[0], s.now))
    case Finish =>
      s.(exec := Free, refreshed := s.now,
         ticker := if s.exec.tick then Sleeping(s.now + c.interval) else s.ticker)
  }

  ghost predicate Legal(c: Config, s: State, run: seq<Event>)
    decreases |run|
  {
    run == [] || (Enabled(c, s, run[0]) && Legal(c, Next(c, s, run[0]), run[1..]))
  }

  ghost function After(c: Config, s: State, run: seq<Event>): State
    requires Legal(c, s, run)
    decreases |run|
  {
    if run == [] then s else After(c, Next(c, s, run[0]), run[1..])
  }

  /** The next refresh is always in sight: whatever is going on began within one interval of
      the last refresh, or the ticker will start it by then. */
  ghost predicate InSight(c: Config, s: State) {
    && s.refreshed <= s.now
    && (s.ticker.Sleeping? ==> s.now <= s.ticker.until <= s.now + c.interval)
    && (s.ticker.Waiting? ==> true in s.queue || (s.exec.Busy? && s.exec.tick))
    && match s.exec
       case Busy(_, started) => started <= s.refreshed + c.interval && s.now <= started + c.PassMax()
       case Free =>
         if s.queue == [] then s.ticker.Sleeping? && s.ticker.until <= s.refreshed + c.interval
         else s.now <= s.refreshed + c.interval
  }

  lemma {:induction false} StepInSight(c: Config, s: State, e: Event)
    requires InSight(c, s) && Enabled(c, s, e)
    ensures InSight(c, Next(c, s, e))
  {
  }

  lemma {:induction false} RunInSight(c: Config, s: State, run: seq<Event>)
    requires InSight(c, s) && Legal(c, s, run)
    ensures InSight(c, After(c, s, run))
    decreases |run|
  {
    if run != [] {
      StepInSight(c, s, run[0]);
      RunInSight(c, Next(c, s, run[0]), run[1..]);
    }
  }

  /** Over every run from a boot, with any number of outside requests queued ahead and any
      number of ticks rejected by a full queue, the marker is never older than one interval plus
      one pass; so it never outlives the lease if the jobs' overruns fit in one interval. */
  lemma {:induction false} LeaseHolds(c: Config, at: int, remaining: nat, run: seq<Event>)
    requires remaining <= c.interval
    requires Legal(c, Booted(at, remaining), run)
    ensures 0 <= After(c, Booted(at, remaining), run).Age() <= c.interval + c.PassMax()
    ensures c.jobs * c.overrun <= c.interval ==> After(c, Booted(at, remaining), run).Age() <= c.Lease()
  {
    RunInSight(c, Booted(at, remaining), run);
  }

  lemma {:induction false} LegalStep(c: Config, s: State, e: Event, rest: seq<Event>)
    requires Enabled(c, s, e) && Legal(c, Next(c, s, e), rest)
    ensures Legal(c, s, [e] + rest) && After(c, s, [e] + rest) == After(c, Next(c, s, e), rest)
  {
  }

  lemma {:induction false} RunAppend(c: Config, s: State, a: seq<Event>, b: seq<Event>)
    requires Legal(c, s, a) && Legal(c, After(c, s, a), b)
    ensures Legal(c, s, a + b) && After(c, s, a + b) == After(c, After(c, s, a), b)
    decreases |a|
  {
    if a == [] {
      assert a + b == b;
    } else {
      RunAppend(c, Next(c, s, a[0]), a[1..], b);
      LegalStep(c, s, a[0], a[1..] + b);
      assert [a[0]] + (a[1..] + b) == a + b;
    }
  }

  /** The slowest round: a full interval, then the tick and its longest pass. */
  function Round(c: Config): seq<Event> {
    [Elapse(c.interval), Tick, Start, Elapse(c.PassMax())]
  }

  /** Just refreshed and idle, with the next tick a full interval away. */
  predicate Rested(c: Config, s: State) {
    s.exec.Free? && s.queue == [] && s.ticker == Sleeping(s.now + c.interval) && s.refreshed == s.now
  }

  lemma {:induction false} RoundFits(c: Config, s0: State)
    requires Rested(c, s0)
    ensures Legal(c, s0, Round(c)) && After(c, s0, Round(c)).Age() == c.interval + c.PassMax()
  {
    var s1 := Next(c, s0, Elapse(c.interval));
    var s2 := Next(c, s1, Tick);
    var s3 := Next(c, s2, Start);
    LegalStep(c, s3, Elapse(c.PassMax()), []);
    LegalStep(c, s2, Start, [Elapse(c.PassMax())] + []);
    LegalStep(c, s1, Tick, [Start] + ([Elapse(c.PassMax())] + []));
    LegalStep(c, s0, Elapse(c.interval), [Tick] + ([Start] + ([Elapse(c.PassMax())] + [])));
    assert [Elapse(c.interval)] + ([Tick] + ([Start] + ([Elapse(c.PassMax())] + []))) == Round(c);
  }

  /** The bound is reached: a boot on a record that is exactly fresh, then one longest pass. */
  lemma {:induction false} BoundIsReached(c: Config, at: int)
    ensures Legal(c, Booted(at, c.interval), Round(c))
    ensures After(c, Booted(at, c.interval), Round(c)).Age() == c.interval + c.PassMax()
  {
    RoundFits(c, Booted(at, c.interval));
  }

  // ---- the schedule goes on ----

  /** The pass under way ends, and n queued requests are run one after the other. */
  function Drain(n: nat): seq<Event> {
    if n == 0 then [Finish] else [Finish] + ([Start] + Drain(n - 1))
  }

  /** Outside requests are run in no time at all and leave the ticker alone. */
  lemma {:induction false} DrainEmpties(c: Config, s: State)
    requires s.exec.Busy? && true !in s.queue
    ensures Legal(c, s, Drain(|s.queue|))
    ensures var s' := After(c, s, Drain(|s.queue|));
            && s'.exec.Free? && s'.queue == [] && s'.now == s'.refreshed == s.now
            && s'.ticker == if s.exec.tick then Sleeping(s.now + c.interval) else s.ticker
    decreases |s.queue|
  {
    var s1 := Next(c, s, Finish);
    if s.queue == [] {
      LegalStep(c, s, Finish, []);
      assert [Finish] + [] == [Finish];
    } else {
      var s2 := Next(c, s1, Start);
      var rest := Drain(|s.queue| - 1);
      DrainEmpties(c, s2);
      LegalStep(c, s1, Start, rest);
      LegalStep(c, s, Finish, [Start] + rest);
    }
  }

  /** How many requests the ticker has in the queue. */
  function QueuedTicks(queue: seq<bool>): nat {
    if queue == [] then 0 else QueuedTicks(queue[1..]) + (if queue[0] then 1 else 0)
  }

  /** The ticker has one request under way while it waits, and none while it sleeps. */
  predicate OneTick(s: State) {
    QueuedTicks(s.queue) + (if s.exec.Busy? && s.exec.tick then 1 else 0) == (if s.ticker.Waiting? then 1 else 0)
  }

  lemma {:induction false} QueuedTicksAppend(queue: seq<bool>, b: bool)
    ensures QueuedTicks(queue + [b]) == QueuedTicks(queue) + (if b then 1 else 0)
    ensures QueuedTicks(queue) == 0 <==> true !in queue
  {
    if queue != [] {
      QueuedTicksAppend(queue[1..], b);
      assert (queue + [b])[1..] == queue[1..] + [b];
    } else {
      assert (queue + [b])[1..] == [];
    }
  }

  /** It holds from a boot on. So in every run a tick whose pass is under way has only outside
      requests behind it, and so has a pass during which the ticker sleeps. */
  lemma {:induction false} OneTickAlways(c: Config, s: State, run: seq<Event>)
    requires OneTick(s) && Legal(c, s, run)
    ensures OneTick(After(c, s, run))
    ensures var s' := After(c, s, run);
            s'.ticker.Sleeping? || (s'.exec.Busy? && s'.exec.tick) ==> true !in s'.queue
    decreases |run|
  {
    QueuedTicksAppend(s.queue, true);
    QueuedTicksAppend(s.queue, false);
    if run != [] {
      OneTickAlways(c, Next(c, s, run[0]), run[1..]);
    }
  }

  /** The ticker waits one interval from the moment its tick resolved, in every round and not only
      after a boot: when the pass of a tick ends, with any number of outside requests queued
      behind it, the slowest round still fits after them. */
  lemma {:induction false} NextRoundAfterPass(c: Config, s: State)
    requires OneTick(s) && s.exec.Busy? && s.exec.tick
    ensures var run := Drain(|s.queue|) + Round(c);
            Legal(c, s, run) && After(c, s, run).Age() == c.interval + c.PassMax()
  {
    OneTickAlways(c, s, []);
    DrainEmpties(c, s);
    RoundFits(c, After(c, s, Drain(|s.queue|)));
    RunAppend(c, s, Drain(|s.queue|), Round(c));
  }

  /** A tick that finds the queue full is skipped, and the wait starts anew from there. */
  lemma {:induction false} NextRoundAfterRejection(c: Config, s: State)
    requires OneTick(s) && s.exec.Busy? && s.ticker.Sleeping? && |s.queue| >= QUEUE_CAPACITY
    ensures var run := [Tick] + (Drain(|s.queue|) + Round(c));
            Legal(c, s, run) && After(c, s, run).Age() == c.interval + c.PassMax()
  {
    OneTickAlways(c, s, []);
    var s1 := Next(c, s, Tick);
    DrainEmpties(c, s1);
    RoundFits(c, After(c, s1, Drain(|s.queue|)));
    RunAppend(c, s1, Drain(|s.queue|), Round(c));
    LegalStep(c, s, Tick, Drain(|s.queue|) + Round(c));
  }

  function Submits(n: nat): seq<Event> {
    if n == 0 then [] else Submits(n - 1) + [Submit]
  }

  /** Outside requests are taken in at any time, and the queue holds sixteen: of n that arrive at
      once the first ones that fit are queued and the others are turned away. */
  lemma {:induction false} QueueHoldsSixteen(c: Config, s: State, n: nat)
    requires |s.queue| <= 16
    ensures Legal(c, s, Submits(n))
    ensures var s' := After(c, s, Submits(n));
            && s' == s.(queue := s'.queue) && s.queue <= s'.queue
            && |s'.queue| == (if |s.queue| + n <= 16 then |s.queue| + n else 16)
            && (forall i :: |s.queue| <= i < |s'.queue| ==> !s'.queue[i])
  {
    if n > 0 {
      QueueHoldsSixteen(c, s, n - 1);
      var t := After(c, s, Submits(n - 1));
      LegalStep(c, t, Submit, []);
      assert [Submit] + [] == [Submit];
      RunAppend(c, s, Submits(n - 1), [Submit]);
    }
  }

  function Starts(run: seq<Event>): nat {
    if run == [] then 0 else Starts(run[1..]) + (if run[0].Start? then 1 else 0)
  }

  /** Requests are served in the order in which they were queued, whatever arrives behind them:
      after k starts the first k are gone and the others are next in line. */
  lemma {:induction false} QueueIsFair(c: Config, s: State, run: seq<Event>)
    requires Legal(c, s, run) && Starts(run) <= |s.queue|
    ensures s.queue[Starts(run)..] <= After(c, s, run).queue
    ensures After(c, s, run).exec.Busy? ==>
              if Starts(run) == 0 then After(c, s, run).exec == s.exec
              else After(c, s, run).exec.tick == s.queue[Starts(run) - 1]
    decreases |run|
  {
    if run != [] {
      var s', n := Next(c, s, run[0]), Starts(run[1..]);
      if run[0].Start? {
        QueueIsFair(c, s', run[1..]);
        assert s'.queue[n..] == s.queue[n + 1..];
      } else {
        assert s.queue <= s'.queue;
        QueueIsFair(c, s', run[1..]);
        assert s.queue[n..] <= s'.queue[n..];
      }
    }
  }

  ghost predicate NeverExpires(c: Config) {
    forall at: int, remaining: nat, run: seq<Event> {:induction false}
      | remaining <= c.interval && Legal(c, Booted(at, remaining), run) ::
      After(c, Booted(at, remaining), run).Age() <= c.Lease()
  }

  /** Two intervals are exactly enough: no clean daemon ever probes stale iff the overruns of
      all its jobs together fit in one interval. */
  lemma {:induction false} LeaseIsExact(c: Config)
    ensures NeverExpires(c) <==> c.jobs * c.overrun <= c.interval
  {
    if c.jobs * c.overrun <= c.interval {
      forall at: int, remaining: nat, run: seq<Event> | remaining <= c.interval && Legal(c, Booted(at, remaining), run)
        ensures After(c, Booted(at, remaining), run).Age() <= c.Lease()
      {
        LeaseHolds(c, at, remaining, run);
      }
    } else {
      BoundIsReached(c, 0);
      assert After(c, Booted(0, c.interval), Round(c)).Age() > c.Lease();
    }
  }
}
