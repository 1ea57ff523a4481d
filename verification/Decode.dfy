/** From the printed arguments back to the job: validation, printer and advisories together. */
module ArgsRoundTrip {
  import opened Options
  import opened Hosts
  import opened Config
  import opened RemoteShell
  import opened RsyncArgs

  /** Everything an argument list says about a job and its transport. */
  datatype Settings = Settings(
    acls: bool, xattrs: bool, compress: string, delete: bool, cap: Option<nat>, owner: Option<(nat, nat)>,
    key: string, hostKeys: HostKeys, excludes: seq<string>, local: string, user: string, host: string, path: string)

  predicate EndsInSlash(s: string) { s != "" && s[|s| - 1] == '/' }

  /** A request with its embedded command and destination taken apart. Every request asks for the
      recursive base and for statistics, and for super-user rights iff it sets an owner. */
  function Interpret(r: Request): Option<Settings> {
    match (ReadSsh(r.shell), ReadDest(r.dest))
    case (Some(ssh), Some(d)) =>
      if r.base && r.stats && r.super == r.owner.Some? &&
         EndsInSlash(r.source) && EndsInSlash(d.path) && GLOBAL_EXCLUDES <= r.excludes then
        Some(Settings(r.acls, r.xattrs, r.compress, r.delete, r.cap, r.owner, ssh.0, ssh.1,
                      r.excludes[|GLOBAL_EXCLUDES|..], r.source[..|r.source| - 1],
                      d.user, d.host, d.path[..|d.path| - 1]))
      else None
    case _ => None
  }

  function Decode(args: seq<string>): Option<Settings> {
    match Read(args, NOTHING)
    case None => None
    case Some(r) => Interpret(r)
  }

  /** What the job and the transport say, with the inert settings left out. */
  function SettingsOf(ip: string -> bool, j: Job, tr: Transport): Settings {
    var r := SplitRemoteHost(ip, j.remoteHost);
    Settings(tr.acls, tr.xattrs, tr.compress, j.delete, EffectiveCap(j), EffectiveOwner(j), j.sshKey, tr.hostKeys,
             NonEmpty(j.excludes), j.local, r.user, r.host, j.remotePath)
  }

  /** The settings are those of the job and the transport; only a cap without deletion, half an
      ownership pair and empty patterns are missing. Login and host are those of the text. */
  ghost predicate Conveys(s: Settings, j: Job, tr: Transport) {
    && s.acls == tr.acls && s.xattrs == tr.xattrs && s.compress == tr.compress && s.hostKeys == tr.hostKeys
    && s.delete == j.delete && s.key == j.sshKey && s.local == j.local && s.path == j.remotePath
    && (s.cap.Some? <==> j.delete && j.maxDelete.Some?) && (s.cap.Some? ==> s.cap.value == j.maxDelete.value)
    && (s.owner.Some? <==> j.uid.Some? && j.gid.Some?)
    && (s.owner.Some? ==> s.owner.value == (j.uid.value, j.gid.value))
    && s.excludes == NonEmpty(j.excludes)
    && (|| j.remoteHost == Login(j.remoteHost, s.user) + s.host
        || j.remoteHost == Login(j.remoteHost, s.user) + ("[" + s.host + "]"))
  }

  lemma {:induction false} GlobalsHaveNoEmpty()
    ensures NonEmpty(GLOBAL_EXCLUDES) == GLOBAL_EXCLUDES
  {
    assert "" !in GLOBAL_EXCLUDES;
    NothingToSkip(GLOBAL_EXCLUDES);
  }

  lemma {:induction false} KeyIsPlain(k: string)
    requires ValidKeyPath(k)
    ensures Plain(k)
  {
  }

  lemma {:induction false} InterpretParts(r: Request, key: string, mode: HostKeys, remote: Remote,
                                          path: string, local: string,
                       excludes: seq<string>)
    requires ReadSsh(r.shell) == Some((key, mode))
    requires ReadDest(r.dest) == Some(Dest(remote.user, remote.host, path + "/"))
    requires r.source == local + "/" && r.excludes == GLOBAL_EXCLUDES + excludes
    requires r.base && r.stats && r.super == r.owner.Some?
    ensures Interpret(r) == Some(Settings(r.acls, r.xattrs, r.compress, r.delete, r.cap, r.owner, key, mode,
                                          excludes, local, remote.user, remote.host, path))
  {
  }

  lemma {:induction false} InterpretRequest(ip: string -> bool, readable: string -> bool, j: Job, tr: Transport)
    requires IPContract(ip) && ValidJob(ip, readable, j)
    ensures Interpret(RequestOf(ip, j, tr)) == Some(SettingsOf(ip, j, tr))
    ensures Conveys(SettingsOf(ip, j, tr), j, tr)
  {
    KeyIsPlain(j.sshKey);
    ReadSshCommand(j.sshKey, tr.hostKeys);
    DestRoundTrip(ip, j.remoteHost, j.remotePath);
    GlobalsHaveNoEmpty();
    var _ := SplitIsTheText(ip, j.remoteHost);
    InterpretParts(RequestOf(ip, j, tr), j.sshKey, tr.hostKeys, SplitRemoteHost(ip, j.remoteHost), j.remotePath,
                   j.local, NonEmpty(j.excludes));
  }

  /** For every valid job and every transport, the argument list says exactly what the job says:
      delete flag, cap, ownership pair, nonempty excludes in order, key, host-key mode,
      compression and both endpoints. */
  lemma {:induction false} DecodeArgs(ip: string -> bool, readable: string -> bool, j: Job, tr: Transport)
    requires IPContract(ip) && ValidJob(ip, readable, j)
    ensures Decode(ArgsOf(ip, j, tr)) == Some(SettingsOf(ip, j, tr))
    ensures Conveys(SettingsOf(ip, j, tr), j, tr)
  {
    ArgsRead(ip, j, tr);
    InterpretRequest(ip, readable, j, tr);
  }

  // ---- the advisories ----

  predicate Quiet(j: Job) {
    !CapIsInert(j) && !OwnerIsInert(j) && !ExcludeIsInert(j)
  }

  lemma {:induction false} NothingToSkip(es: seq<string>)
    requires "" !in es
    ensures NonEmpty(es) == es
  {
    if es != [] {
      NothingToSkip(es[..|es| - 1]);
      assert es[|es| - 1] in es;
    }
  }

  /** What validation is for: the endpoints of a valid job are absolute, the printed destination is
      never an option and never rsync's daemon form, and a shell that splits at spaces and reads
      quotes sees the remote path as one word. */
  lemma {:induction false} ValidEndpoints(ip: string -> bool, readable: string -> bool, j: Job)
    requires IPContract(ip) && ValidJob(ip, readable, j)
    ensures j.local[..1] == "/"
    ensures var part := HostPart(SplitRemoteHost(ip, j.remoteHost));
            var dest := RemoteDest(ip, j.remoteHost, j.remotePath);
            && ColonsBracketed(part) && part < dest && dest[|part|] == ':' && dest[|part| + 1] == '/'
            && dest[0] != '-' && dest[0] != '/'
    ensures SplitWords(j.remotePath) == Some([j.remotePath])
    ensures forall c :: c in j.remotePath ==> c !in "*?[]"
  {
    ValidMeansFieldsHold(ip, readable, j);
    NoDaemonSeparator(ip, j.remoteHost, j.remotePath);
    FirstCharOfDest(ip, j.remoteHost, j.remotePath);
    PathIsPlain(j.remotePath);
    SplitJoin([j.remotePath]);
  }

  lemma {:induction false} PathIsPlain(p: string)
    requires p != "" && forall i :: 0 <= i < |p| ==> PathChar(p[i])
    ensures Plain(p) && forall c :: c in p ==> c !in "*?[]"
  {
  }

  lemma {:induction false} FirstCharOfDest(ip: string -> bool, raw: string, path: string)
    requires IPContract(ip) && ValidRemoteHost(ip, raw)
    ensures var dest := RemoteDest(ip, raw, path); dest[0] != '-' && dest[0] != '/'
  {
    ValidParts(ip, raw);
  }

  /** If no inert-setting advisory fires, no setting was dropped. */
  lemma {:induction false} QuietJobKeepsEverything(ip: string -> bool, readable: string -> bool, j: Job, tr: Transport)
    requires IPContract(ip) && ValidJob(ip, readable, j) && Quiet(j)
    ensures var s := SettingsOf(ip, j, tr);
            && Decode(ArgsOf(ip, j, tr)) == Some(s)
            && s.excludes == j.excludes
            && (s.cap.None? <==> j.maxDelete.None?) && (s.cap.Some? ==> s.cap.value == j.maxDelete.value)
            && (s.owner.None? <==> j.uid.None? && j.gid.None?)
            && (s.owner.Some? ==> j.uid == Some(s.owner.value.0) && j.gid == Some(s.owner.value.1))
  {
    DecodeArgs(ip, readable, j, tr);
    NothingToSkip(j.excludes);
  }

  /** So two quiet valid jobs that run the same command are the same job, up to the name and the
      spelling of the host, and were printed under the same transport. */
  lemma {:induction false} SameArgsSameJob(ip: string -> bool, readable: string -> bool, j: Job, k: Job,
                                           tr: Transport, tr': Transport)
    requires IPContract(ip) && ValidJob(ip, readable, j) && ValidJob(ip, readable, k) && Quiet(j) && Quiet(k)
    requires ArgsOf(ip, j, tr) == ArgsOf(ip, k, tr')
    ensures tr == tr'
    ensures j == k.(name := j.name, remoteHost := j.remoteHost)
    ensures SplitRemoteHost(ip, j.remoteHost) == SplitRemoteHost(ip, k.remoteHost)
  {
    QuietJobKeepsEverything(ip, readable, j, tr);
    QuietJobKeepsEverything(ip, readable, k, tr');
    var s := SettingsOf(ip, j, tr);
    assert s == SettingsOf(ip, k, tr');
    assert j.maxDelete == k.maxDelete && j.uid == k.uid && j.gid == k.gid;
  }

  /** The cap advisory fires exactly when erasing the cap changes nothing. */
  lemma {:induction false} CapAdvisoryExact(ip: string -> bool, j: Job, tr: Transport)
    requires j.maxDelete.Some? && j.maxDelete.value >= 0
    ensures CapIsInert(j) <==> ArgsOf(ip, j.(maxDelete := None), tr) == ArgsOf(ip, j, tr)
  {
    var k := j.(maxDelete := None);
    if ArgsOf(ip, k, tr) == ArgsOf(ip, j, tr) {
      ArgsRead(ip, j, tr);
      ArgsRead(ip, k, tr);
      assert EffectiveCap(j) == EffectiveCap(k);
    }
    if CapIsInert(j) {
      assert DeleteArgs(TransportArgs(tr), j) == DeleteArgs(TransportArgs(tr), k);
      assert OwnerArgs(DeleteArgs(TransportArgs(tr), j), j) == OwnerArgs(DeleteArgs(TransportArgs(tr), k), k);
    }
  }

  /** The ownership advisory fires exactly when erasing the ids that are set changes nothing. */
  lemma {:induction false} OwnerAdvisoryExact(ip: string -> bool, j: Job, tr: Transport)
    requires j.uid.Some? || j.gid.Some?
    requires j.maxDelete.Some? ==> j.maxDelete.value >= 0
    ensures OwnerIsInert(j) <==> ArgsOf(ip, j.(uid := None, gid := None), tr) == ArgsOf(ip, j, tr)
  {
    var k := j.(uid := None, gid := None);
    if ArgsOf(ip, k, tr) == ArgsOf(ip, j, tr) {
      ArgsRead(ip, j, tr);
      ArgsRead(ip, k, tr);
      assert EffectiveOwner(j) == EffectiveOwner(k);
    }
    if OwnerIsInert(j) {
      assert DeleteArgs(TransportArgs(tr), j) == DeleteArgs(TransportArgs(tr), k);
      assert OwnerArgs(DeleteArgs(TransportArgs(tr), j), j) == OwnerArgs(DeleteArgs(TransportArgs(tr), k), k);
    }
  }

  lemma {:induction false} FiltersSkipEmpty(args: seq<string>, es: seq<string>)
    ensures FilterArgs(args, NonEmpty(es)) == FilterArgs(args, es)
    decreases |es|
  {
    if es != [] {
      var front, e := es[..|es| - 1], es[|es| - 1];
      FiltersSkipEmpty(args, front);
      if e != "" {
        var kept := NonEmpty(es);
        assert kept[..|kept| - 1] == NonEmpty(front);
      }
    }
  }

  /** Erasing the empty excludes leaves the arguments unchanged. */
  lemma {:induction false} EmptyExcludesAreInert(ip: string -> bool, j: Job, tr: Transport)
    ensures ArgsOf(ip, j.(excludes := NonEmpty(j.excludes)), tr) == ArgsOf(ip, j, tr)
    ensures ExcludeIsInert(j) <==> NonEmpty(j.excludes) != j.excludes
  {
    var k := j.(excludes := NonEmpty(j.excludes));
    var options := OwnerArgs(DeleteArgs(TransportArgs(tr), j), j);
    var shell := options + ["--stats"] + ["-e", SshCommand(j.sshKey, tr.hostKeys)];
    FiltersSkipEmpty(FilterArgs(shell, GLOBAL_EXCLUDES), j.excludes);
    assert options == OwnerArgs(DeleteArgs(TransportArgs(tr), k), k);
    NoEmptyLeft(j.excludes);
    if !ExcludeIsInert(j) {
      NothingToSkip(j.excludes);
    }
  }

  lemma {:induction false} NoEmptyLeft(es: seq<string>)
    ensures "" !in NonEmpty(es)
  {
    if es != [] {
      NoEmptyLeft(es[..|es| - 1]);
    }
  }
}
