# docker-rsync-scheduler: a verified model

docker-rsync-scheduler is a daemon that pushes local folders to remote hosts with rsync over ssh, on its own
interval or on request. This project models the parts of it whose correctness is not visible in one function, and
proves what they promise. `dafny verify dfyconfig.toml` checks everything; nothing here is executed.

The model has four parts.

**Shared destinations** (`Text`, `Paths`, `Overlap`, `Advisory`). Jobs on one host are partitioned into sets of equal or
nested remote trees by growing each set to a fixpoint. The partition is proved to be the connected components of the
overlap graph, and the warning built on it is proved exact: a job is reported iff another job on its host overlaps it
and one of the two deletes. Because nesting is a forest, the first job listed holds the whole tree.

**Passes, health and the last-run record** (`Jobs`, `Passes`, `Daemon`, `Executor`, `Lease`). A job's outcome, a
pass's tally under a shutdown that lands at any point, and the daemon across restarts as a state machine in which
writes and removals may fail and the process may stop between any two steps. The executor's methods are proved to
take only steps of that machine, and the laws are stated over every run of it. A second, timed machine of ticker,
queue and executor shows that the healthcheck's deadline is exactly as long as it has to be.

**Captured output** (`Streams`, `Tail`). The bounded buffer and the watch for the max-delete line refine one-line
meanings over the whole byte stream, for every way of cutting the stream into writes. The logged tail never begins
inside a character and does not depend on the buffer's cap.

**The rsync command** (`Numbers`, `Hosts`, `Config`, `Shell`, `Args`, `Decode`, `KnownHosts`). A reader of argument
lists, of the `-e` string and of `[user@]host:path` is defined independently of the printer; for every valid job it
recovers what the job says. The inert-setting advisories are shown to fire exactly where the printer drops something.

## How the model is set up

- Text is a sequence of chars, one per byte, except known_hosts, which the source reads by character.
- Paths in the advisory are already cleaned: they start with a slash and have no empty segment and no trailing slash.
  `pathinside.Root.Contains` is the lexical test in `Paths.Contains`, which `Paths.ContainsIsSegmentPrefix` identifies
  as the prefix order on segments.
- The key under which hosts are grouped is a given field of each job.
- `net.ParseIP` and the readability of the key file are predicates passed in. All that is assumed of the first is that
  an accepted address is nonempty and consists of hexadecimal digits, dots and colons.
- What the operating system reports about a child process is an input record. The shutdown context is looked at before
  and at the end of each job; those looks are numbered, and cancellation is one point in that numbering.
- `Stamp.Remaining`, `Latch`, `RunLoop` and the request queue are modelled by what the repository's documentation and
  comments say of them. The wall clock is an integer that may go backwards between boots; the moment of the boot check
  is the moment from which `RunLoop` counts its first delay.
- A write of the record that does not succeed may leave the old content, no file, a torn file, or the complete new
  line. The machine lets a request begin during a drain; the daemon does not, so its runs are among the machine's.
- Automatic induction is switched off throughout; every inductive proof is written out.
- The splitter of the `-e` string is this model's own reading of rsync, after the comments at sync.go:161-163 and
  config.go:487-489: a space ends a word, either quote groups until it is closed, and nothing is an escape.
- `slices.SortFunc` is any sorted rearrangement; ties are in no particular order.

## Where the code and its comments differ

- A comment in `runJob` says that a job deadline is always a failure (sync.go:386-388). The code still counts a job
  whose deadline passed as successful when rsync reported exit 0, or exit 24 without a max-delete line.
  `JobRun.DeadlineCanSucceed` gives both inputs and `JobRun.DeadlineIsNotDrain` the exact condition; the model follows
  the code.

## Laws with exact conditions

- The record should tell when the last scheduled pass ended and whether it succeeded (docs/configuration.md:35). It
  tells of an earlier pass iff the last pass's recording left the disk untouched (`Daemon.RecordIsLastPass`). That
  happens when the process stops before the write (`Daemon.EarlyStopKeepsStaleSuccess`) or when both the write and the
  removal fail (`Daemon.DoubleFailureKeepsStaleSuccess`), which the log message at daemon.go:276 admits; in both runs
  the next boot is healthy although the last pass failed.
- The record is the verdict of the latest scheduled pass whose `recordScheduled` returned iff that pass's own call
  returned and no later call failed both to write and to remove (`Daemon.RecordIsLatestVerdict`). The exceptions are a
  stop after the line is complete (`Daemon.LateStopOutrunsReturn`), where the record is the newer, and the double
  failure.
- The lease of two intervals plus every job's timeout covers a clean daemon iff the jobs' overruns beyond their
  timeouts together fit in one interval (`FreshnessLease.LeaseIsExact`).

## Model

| member | source | states |
|---|---|---|
| `Paths.ContainsIsSegmentPrefix` | config.go:329-337 | the containment test on cleaned path text is segment-wise prefix, equality included, so `/srv/x` does not contain `/srv/xy` |
| `Paths.CleanMeans` | config.go:329-337 | the paths that the test is about are the root and a slash before nonempty segments |
| `Paths.OverlapsIsNesting` | config.go:329-340 | two paths overlap iff the segments of one begin those of the other |
| `Paths.CommonDescendantOverlaps` | config.go:329-340 | two trees that hold a common path are nested: the order is a forest |
| `OverlapGraph.OverlapsAny` | config.go:329-340 | true iff the path is equal to, inside or around some member's path |
| `OverlapGraph.GrowOnce` | config.go:313-323 | one sweep keeps the partition invariant, shrinks the untaken set if it grew the component, and otherwise leaves no untaken job that overlaps it |
| `OverlapGraph.OverlapComponents` | config.go:300-327 | terminates and returns exactly the connected components: each job in one component, listed once, and two jobs together iff a chain of overlaps joins them |
| `OverlapGraph.GrowComponents` | config.go:304-327 | the loops themselves, with the numbering of components that they build up as a witness |
| `OverlapGraph.ChainHasOutermost` | config.go:342-346 | a connected set of paths has a member that contains all the others |
| `SharedDestinations.SortByPath` | config.go:368-370 | a sorted rearrangement |
| `SharedDestinations.SortedMeans` | config.go:368-370 | sorted means by length, and at equal length by text: prefix, or smaller at the first difference |
| `SharedDestinations.LexIsTextOrder` | config.go:368-370 | the recursive comparison is the order of texts by their first difference |
| `SharedDestinations.WarnConflictingTree` | config.go:342-390 | warns iff the set has two members and a deleter; the record lists, sorted, exactly the members that overlap a deleter, and samples three of them and of their deleters |
| `SharedDestinations.DeletesSample` | config.go:371-379 | every deleter is itself at risk, so the count is that of the listed deleters and the printed names are the first three of them, or all |
| `SharedDestinations.DeletersKeepOrder` | config.go:371-379 | the deleters are taken in the order of the sorted list |
| `SharedDestinations.WarnGroup` | config.go:293-298 | per host: a job is reported iff it conflicts with another; both sides of a conflict share one advisory and no job is in two; every advisory has two jobs at risk and a deleter, and its first entry contains the whole component, filtered members included |
| `SharedDestinations.WarnSharedDestinations` | config.go:258-302 | one block for every host that has a job and for no other, in ascending order of the host texts, each exact for that host's jobs |
| `SharedDestinations.ReportedIffShared` | config.go:258-302 | over the whole file: a job is reported under its host iff some other job there has an overlapping tree and one of the two deletes |
| `Streams.CappedBuffer.Write` | sync.go:581-604 | after any writes the buffer holds the last `max` bytes of everything written; each write reports its full length and never drops more than is buffered |
| `Streams.WatchIsExact` | sync.go:545-579 | over every stream the automaton's flag is on iff some line begins with the pattern, and its index stays in bounds |
| `Streams.LinesArePieces` | sync.go:545-579 | a line begins with the pattern iff one of the pieces between newlines does |
| `Streams.DelLimitCapture.Write` | sync.go:557-579 | one chunk through the watch and into the buffer: the flag is on iff a line of the whole stream so far begins with the max-delete warning |
| `Streams.CaptureStderr` | sync.go:362-397 | for every way of cutting stderr into writes, the kept text is the stream's tail and the flag is about the whole stream |
| `StderrTail.Tail` | sync.go:296-311 | the loop finds the first character start at or after the cut |
| `StderrTail.TailShape` | sync.go:296-311 | arbitrary bytes: what fits in n bytes is returned as it is, and anything longer as the marker plus a suffix of at most n bytes that does not begin with a continuation byte, only continuation bytes being skipped |
| `StderrTail.TailOfUtf8` | sync.go:296-311 | well-formed UTF-8: at most three bytes beyond the cut are dropped, and the kept suffix, the dropped prefix and the logged string are well-formed |
| `StderrTail.ValidIsEncoded` | sync.go:296-311 | every text called well-formed encodes a sequence of Unicode scalar values |
| `StderrTail.EncodedIsValid` | sync.go:296-311 | and every such encoding is well-formed |
| `StderrTail.CapInvisible` | sync.go:302-311 | cutting the capped buffer gives the same string as cutting the whole stream iff the tail is shorter than the cap or nothing was evicted |
| `JobRun.RunJob` | sync.go:321-468 | success iff the source is empty, or it is readable and rsync exited 0, or 24 with no max-delete line in the whole stderr stream; so an unreadable source fails, exit 25 fails, and exit 24 fails iff the cap's line was printed, whatever the buffer evicted; otherwise interrupted iff the parent was cancelled, the job's own deadline did not pass, and this app refused the start or signalled the child that died of it; the logged tail is that of the uncapped stream |
| `JobRun.DeadlineIsNotDrain` | sync.go:321-326 | a job past its own deadline is never counted as drained, and it fails iff rsync's report is neither exit 0 nor exit 24 without a max-delete line |
| `JobRun.DeadlineCanSucceed` | sync.go:386-436 | a run past its deadline that exits 0, and one that exits 24 without a max-delete line, both counted as successful |
| `PassRun.RunPass` | sync.go:491-522 | the tally equals the counts over the outcomes of the jobs that the cancellation point lets start |
| `PassRun.PassMeans` | sync.go:491-522 | job i starts iff the shutdown had not landed by its look 2i, is judged under the shutdown as look 2i + 1 finds it, and the tally is the multiplicity of each outcome |
| `PassRun.OnlyTheLastIsInterrupted` | sync.go:493-520 | an interrupted job is the last one started, so there is at most one |
| `PassRun.PassLedger` | sync.go:470-522 | for every job list and cancellation point: interrupted iff ok + failed < total, skipped <= ok, and at most one started job is neither |
| `PassRun.VerdictMeans` | sync.go:482-489 | a published success means that every configured job succeeded; a pass publishes nothing iff it was cut short without a failure |
| `PassRun.UndisturbedPass` | sync.go:493-522 | without a shutdown every job starts and the pass is healthy iff none failed |
| `Daemon.PlanBoot` | daemon.go:96-116 | a built-in boot is healthy and skips its startup pass iff the record is a success less than one interval old and can be rewritten; the remaining wait ends one interval after that success, or one interval after the boot if the record is from the future |
| `Daemon.MarkerAlwaysHonest` | health.go:37-46 | in every state of every run, with or without a live daemon, the marker is the last verdict that a boot, a vouchable pass or a failed reload or boot gave, until a drain begins, and is not healthy from then until another boot |
| `Daemon.HealthyMarkerIsEarned` | daemon.go:67-116 | over every run the marker is healthy iff no drain has begun and the event that settled it was an external boot, a built-in boot on a fresh rewritable success, or a pass in which every configured job succeeded |
| `Daemon.DownAfterExitIsUnhealthy` | daemon.go:67-74 | after an exit or a failed boot, whatever a killed daemon had left, the marker stays unhealthy until another boot |
| `Daemon.TriggeredRunKeepsRecord` | daemon.go:257-263 | over any run without a scheduled pass, whatever boots, reload failures, drains and stops it has, the record does not change |
| `Daemon.ExternalModeNeverRecords` | daemon.go:190-200 | no run of external-mode boots writes a record |
| `Daemon.CleanInterruptionWritesNothing` | health.go:37-46 | a pass cut short without a failure changes neither marker nor record; a full success shows unless draining; any failure shows |
| `Daemon.RunExplained` | daemon.go:257-278 | over every run of boots, passes, failed writes and removals and stops, the disk holds what the calls of recordScheduled explain |
| `Daemon.RecordIsLatestVerdict` | daemon.go:257-278 | a readable record is the verdict of a scheduled pass that no later call overwrote, and it is the latest one whose call returned iff its own call returned and none since failed both to write and to remove |
| `Daemon.RecordIsLastPass` | docs/configuration.md:35 | in every state of every run, recordings under way included: a readable record is the verdict of a scheduled pass of the run and no later call touched the disk; it is the last scheduled pass that reached a verdict iff that pass's own line is complete on disk, and an earlier one iff the last pass's recording has not touched the disk |
| `Daemon.HealthyBootIsEarned` | daemon.go:96-116 | a built-in boot that starts healthy stands on a rewritable record, less than one interval old, of a scheduled pass in which every job succeeded; that pass is the last scheduled one iff the last one's own line is complete on disk |
| `Daemon.StopDuringWrite` | daemon.go:260-267 | a process that stops inside the write can leave each of the four contents, all by legal runs |
| `Daemon.StopDuringRemoval` | daemon.go:268-278 | one that stops inside the removal can leave what the failed write left, or no file |
| `Daemon.EarlyStopKeepsStaleSuccess` | daemon.go:229-263 | a run in which the process stops between the verdict and the write, and the next boot is healthy on the older success |
| `Daemon.LateStopOutrunsReturn` | daemon.go:260-267 | a run in which the process stops with the last pass's complete record although that call never returned |
| `Daemon.DoubleFailureKeepsStaleSuccess` | daemon.go:268-278 | a run in which write and removal fail and the next boot is healthy on the older success |
| `Daemon.RestartsKeepPhase` | docs/configuration.md:35-39 | once a success is recorded at t, any stops, failed boots, reboots and triggered passes inside the interval leave the first scheduled pass at t + interval: an idle process booted since then can begin it at exactly the moments from t + interval on and has no startup pass; while no process is up, any boot inside the interval is healthy with the same schedule; a boot with the clock set back behind t counts the interval from that boot instead |
| `Daemon.DueRecordRunsAtBoot` | daemon.go:96-110 | a built-in boot has its startup pass due at once iff the record is missing, unreadable, failed, too old or not rewritable |
| `Executor.Executor.constructor` | daemon.go:96-132 | the object built at boot is the machine's state after the boot step |
| `Executor.Executor.RecordScheduled` | daemon.go:257-278 | takes the machine's recording steps for a scheduled pass and none for a triggered one |
| `Executor.Executor.Run` | daemon.go:225-255 | one request from the queue, outside ones at any time and in either mode, with a drain that may begin during the pass, between verdict and recording or between a failed write and the removal, takes exactly the machine's steps for it; the reply is ok iff a pass ran without a failure, with the cut-short reason iff it also left jobs undone |
| `FreshnessLease.LeaseHolds` | health.go:10-35 | over every run, with outside requests queued ahead and ticks rejected by a full queue, the marker is never older than one interval plus the longest pass, hence within the lease if overruns fit in one interval |
| `FreshnessLease.StepInSight` | daemon.go:190-223 | each step of ticker, queue and executor keeps the next refresh within one interval plus one pass of the last |
| `FreshnessLease.BoundIsReached` | health.go:10-35 | that bound is attained |
| `FreshnessLease.NextRoundAfterPass` | daemon.go:201-223 | it is attained in every later round too: the ticker waits a full interval after its pass ends, with any number of outside requests queued behind it |
| `FreshnessLease.NextRoundAfterRejection` | daemon.go:212-223 | and after a tick that a full queue turned away |
| `FreshnessLease.OneTickAlways` | daemon.go:212-223 | in every run the ticker has exactly one request in queue or execution while it waits, and none while it sleeps |
| `FreshnessLease.QueueIsFair` | daemon.go:190-223 | requests are served in the order in which they were queued, whatever arrives behind them |
| `FreshnessLease.QueueHoldsSixteen` | daemon.go:19-22 | outside requests are taken in at any time until sixteen are queued |
| `FreshnessLease.LeaseIsExact` | health.go:28-34 | no clean daemon ever probes stale iff all jobs' overruns fit in one interval |
| `Numbers.ParseNumOfGrouped` | sync.go:287-294 | reading the comma-grouped form of n gives n below 2^63 and 0 from there on |
| `Numbers.ParseNumOfCapture` | sync.go:261-294 | on any text of digits and commas: the value of the digits if it fits in 63 bits, else 0 |
| `Numbers.StripOnlyCommas` | sync.go:287-294 | a text of commas alone reads as 0 |
| `Numbers.DecimalMeans` | sync.go:199-204 | numbers are printed in base ten, most significant digit first |
| `KnownHosts.Classify` | sync.go:123-159 | strict iff some line, after leading white space, is nonempty and not a comment; accept-new iff the file is missing; refused otherwise |
| `Hosts.SplitIsTheText` | config.go:555-572 | the login is the text before the first '@' and the host is the rest, less brackets around an address and nothing else |
| `Hosts.AcceptedGrammar` | config.go:574-590 | remote_host is accepted iff it is a name, an address or a bracketed address, alone or after a login name and '@' |
| `Hosts.NameMeans` | config.go:80-87 | the names of that grammar, written out on the alphabet |
| `Hosts.DestRoundTrip` | config.go:555-609 | for every accepted remote_host and any path, a left-to-right reader gets back the login, the host and the path plus slash |
| `Hosts.NoDaemonSeparator` | config.go:592-609 | before the separator every colon is inside brackets, and the separator is followed by a slash, never by a second colon |
| `ArgsRoundTrip.ValidEndpoints` | config.go:401-495 | from validation alone: the local path is absolute, the destination is neither an option, a local path nor rsync's daemon form, and the remote path is one word without globs |
| `Hosts.BracketsAreOptional` | config.go:555-590 | an address with or without brackets is accepted and gives the same destination |
| `Config.ValidateJob` | config.go:392-430 | no error iff every field meets its contract, and an error is true of the job and names the field at fault |
| `Config.ValidMeansFieldsHold` | config.go:392-515 | that contract char by char: both paths begin with a slash, no field holds a control character, the remote path holds no space, shell or glob character, the key path no space or quote, the cap is not negative and no id is the reserved one |
| `Config.Validate` | config.go:215-240 | accepts exactly the nonempty lists of valid, differently named jobs, and otherwise points at the first job that breaks the list with an error that is true of it |
| `RemoteShell.SplitJoinOnlyPlain` | sync.go:161-177 | a list of words survives joining and rsync's splitting only if every word is nonempty and free of spaces and quotes |
| `RemoteShell.CommandIsWords` | sync.go:164-175 | the source's format text, with its literal spaces, is the intended ssh words joined by single spaces, for every key path and both host-key modes |
| `RemoteShell.SshCommandExact` | sync.go:161-177 | rsync runs ssh with the intended words iff the key path is nonempty and has no space and no quote, which is what validation refuses |
| `RsyncArgs.BuildRsyncArgs` | sync.go:179-226 | the appended list, read back by the independent reader, is the job's request |
| `RsyncArgs.ArgsRead` | sync.go:179-226 | an independent left-to-right reader gets from the printed list exactly the recursive base, the statistics, the effective flags, cap, pair with super-user rights, patterns in order, command and endpoints |
| `RsyncArgs.AllOptionsPrinted` | sync.go:181-226 | the list itself, as text, with every option on and for all values |
| `RsyncArgs.NonEmptyKeeps` | sync.go:215-220 | of the patterns exactly the empty ones are skipped: every other one stays as often as it was there |
| `RsyncArgs.NonEmptyKeepsOrder` | sync.go:215-220 | and in the same order |
| `ArgsRoundTrip.DecodeArgs` | sync.go:179-226 | for every valid job and transport, decoding the arguments gives back, field by field, delete flag, cap of a deleting job, complete ownership pair, nonempty excludes, key, host-key mode, compression, login and host of the text and both paths |
| `ArgsRoundTrip.QuietJobKeepsEverything` | config.go:519-541 | if no inert-setting advisory fires, no setting was dropped |
| `ArgsRoundTrip.SameArgsSameJob` | sync.go:179-226 | two such jobs with equal arguments are equal up to name and host spelling |
| `ArgsRoundTrip.CapAdvisoryExact` | config.go:522-527 | the max_delete advisory fires iff erasing max_delete leaves the arguments unchanged |
| `ArgsRoundTrip.OwnerAdvisoryExact` | config.go:529-536 | the ownership advisory fires iff erasing the ids leaves the arguments unchanged |
| `ArgsRoundTrip.EmptyExcludesAreInert` | config.go:538-541 | erasing empty excludes leaves the arguments unchanged, and the advisory fires iff there is one to erase |

## Left out

- YAML decoding, unknown-key checks, size-capped reads and file opens: foreign libraries and I/O.
- Host-key normalisation in the advisory (case, trailing dot, canonical addresses): the group key is given.
- `filepath.Clean`, `net.ParseIP`, the regular expressions of `parseStats` and strconv's digit loop: used by contract.
- `sourceIsEmpty`: its three results are inputs of a job; the scan itself is a single easy loop.
- The config digest that limits advisories to one per document, and the whitespace advisory on excludes: easy.
- Event wording, durations and counts that are only logged.
- Channel and goroutine scheduling, the order of shutdown waits and the results delivered to queued requests; the
  machine interleaves the drain with every step of a pass instead.
- rsync's other reading of a destination as an `rsync://` address: the reader of destinations covers `[user@]host:path`.
- The trigger client, the subcommand dispatch, the logger and environment parsing: thin dispatch.
