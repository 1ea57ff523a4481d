/** Jobs and their validation. Reading the key file enters as the predicate `readable`. */
module Config {
  import opened Options
  import opened Hosts

  type uint32 = x: int | 0 <= x < 0x1_0000_0000
  const MAX_UINT32: uint32 := 0xFFFF_FFFF

  datatype Job = Job(
    name: string, local: string, remoteHost: string, remotePath: string, sshKey: string,
    excludes: seq<string>, delete: bool, maxDelete: Option<int>, uid: Option<uint32>, gid: Option<uint32>)

  // ---- character classes ----

  predicate HasControl(s: string) {
    exists i :: 0 <= i < |s| && ((s[i] as int) < 0x20 || s[i] as int == 0x7F)
  }

  predicate HasAny(s: string, chars: string) {
    exists i :: 0 <= i < |s| && s[i] in chars
  }

  const SHELL_META := ";|&$`<>(){}\\\"'"
  const GLOB := "*?[]"

  predicate HasShellMeta(s: string) {
    HasControl(s) || HasAny(s, SHELL_META)
  }

  predicate IsAbs(p: string) { p != "" && p[0] == '/' }

  // ---- the contract of one job ----

  ghost predicate ValidRemotePath(p: string) {
    IsAbs(p) && !HasShellMeta(p) && ' ' !in p && !HasAny(p, GLOB)
  }

  ghost predicate ValidKeyPath(k: string) {
    k != "" && !HasControl(k) && !HasAny(k, " '\"")
  }

  ghost predicate ValidJob(ip: string -> bool, readable: string -> bool, j: Job) {
    && IsAbs(j.local) && !HasControl(j.local)
    && j.remoteHost != "" && ValidRemoteHost(ip, j.remoteHost)
    && ValidRemotePath(j.remotePath)
    && ValidKeyPath(j.sshKey) && readable(j.sshKey)
    && !HasControl(j.name)
    && (forall i :: 0 <= i < |j.excludes| ==> !HasControl(j.excludes[i]))
    && (j.maxDelete.Some? ==> j.maxDelete.value >= 0)
    && j.uid != Some(MAX_UINT32) && j.gid != Some(MAX_UINT32)
  }

  datatype JobError =
    | Required(field: string)
    | NotAbsolute(field: string)
    | BadHost
    | Forbidden(field: string)
    | KeyUnreadable
    | NegativeCap
    | UnchangedId(field: string)

  method CheckRequiredFields(j: Job) returns (e: Option<JobError>)
    ensures e.None? <==> j.local != "" && j.remoteHost != "" && j.remotePath != "" && j.sshKey != ""
    ensures e.Some? ==> e.value.Required? && Blames(_ => true, _ => true, j, e.value)
  {
    if j.local == "" { return Some(Required("local")); }
    if j.remoteHost == "" { return Some(Required("remote_host")); }
    if j.remotePath == "" { return Some(Required("remote_path")); }
    if j.sshKey == "" { return Some(Required("ssh_key")); }
    return None;
  }

  method CheckNoForbiddenChars(j: Job) returns (e: Option<JobError>)
    ensures e.None? <==>
            && !HasShellMeta(j.remotePath) && ' ' !in j.remotePath && !HasAny(j.remotePath, GLOB)
            && !HasControl(j.name) && !HasControl(j.local)
            && !HasControl(j.sshKey) && !HasAny(j.sshKey, " '\"")
            && (forall i :: 0 <= i < |j.excludes| ==> !HasControl(j.excludes[i]))
    ensures e.Some? ==> e.value.Forbidden? && Blames(_ => true, _ => true, j, e.value)
  {
    if HasShellMeta(j.remotePath) { return Some(Forbidden("remote_path")); }
    if HasControl(j.name) { return Some(Forbidden("name")); }
    if HasControl(j.local) { return Some(Forbidden("local")); }
    if HasControl(j.sshKey) { return Some(Forbidden("ssh_key")); }
    for i := 0 to |j.excludes|
      invariant forall k :: 0 <= k < i ==> !HasControl(j.excludes[k])
    {
      if HasControl(j.excludes[i]) { return Some(Forbidden("excludes")); }
    }
    if ' ' in j.remotePath { return Some(Forbidden("remote_path")); }
    if HasAny(j.remotePath, GLOB) { return Some(Forbidden("remote_path")); }
    if HasAny(j.sshKey, " '\"") { return Some(Forbidden("ssh_key")); }
    return None;
  }

  method CheckOwnership(j: Job) returns (e: Option<JobError>)
    ensures e.None? <==> j.uid != Some(MAX_UINT32) && j.gid != Some(MAX_UINT32)
    ensures e.Some? ==> e.value.UnchangedId? && Blames(_ => true, _ => true, j, e.value)
  {
    if j.uid == Some(MAX_UINT32) { return Some(UnchangedId("remote_uid")); }
    if j.gid == Some(MAX_UINT32) { return Some(UnchangedId("remote_gid")); }
    return None;
  }

  /** The printable chars of a remote path: none that the remote shell or a glob would read. */
  predicate PathChar(c: char) {
    (c as int) > 0x20 && c as int != 0x7F && c !in ";|&$`<>(){}\\\"'*?[]"
  }

  predicate TextChar(c: char) { (c as int) >= 0x20 && c as int != 0x7F }

  /** What validation promises, field by field and char by char. */
  ghost predicate FieldsHold(ip: string -> bool, readable: string -> bool, j: Job) {
    && j.local != "" && j.local[0] == '/' && (forall i :: 0 <= i < |j.local| ==> TextChar(j.local[i]))
    && ValidRemoteHost(ip, j.remoteHost)
    && j.remotePath != "" && j.remotePath[0] == '/'
    && (forall i :: 0 <= i < |j.remotePath| ==> PathChar(j.remotePath[i]))
    && j.sshKey != "" && readable(j.sshKey)
    && (forall i :: 0 <= i < |j.sshKey| ==> TextChar(j.sshKey[i]) && j.sshKey[i] !in " '\"")
    && (forall i :: 0 <= i < |j.name| ==> TextChar(j.name[i]))
    && (forall k, i :: 0 <= k < |j.excludes| && 0 <= i < |j.excludes[k]| ==> TextChar(j.excludes[k][i]))
    && (j.maxDelete.Some? ==> j.maxDelete.value >= 0)
    && (j.uid.Some? ==> j.uid.value != 4294967295) && (j.gid.Some? ==> j.gid.value != 4294967295)
  }

  lemma {:induction false} ControlMeans(s: string)
    ensures !HasControl(s) <==> forall i :: 0 <= i < |s| ==> TextChar(s[i])
  {
  }

  lemma {:induction false} PathMeans(p: string)
    ensures ValidRemotePath(p) <==> p != "" && p[0] == '/' && forall i :: 0 <= i < |p| ==> PathChar(p[i])
  {
    ControlMeans(p);
    forall i | 0 <= i < |p| && TextChar(p[i])
      ensures PathChar(p[i]) <==> p[i] != ' ' && p[i] !in SHELL_META && p[i] !in GLOB
    {
      PathCharMeans(p[i]);
    }
    assert HasAny(p, SHELL_META) <==> exists i :: 0 <= i < |p| && p[i] in SHELL_META;
    assert ' ' in p <==> exists i :: 0 <= i < |p| && p[i] == ' ';
  }

  lemma {:induction false} PathCharMeans(c: char)
    requires TextChar(c)
    ensures PathChar(c) <==> c != ' ' && c !in SHELL_META && c !in GLOB
  {
  }

  lemma {:induction false} KeyMeans(k: string)
    ensures ValidKeyPath(k) <==> k != "" && forall i :: 0 <= i < |k| ==> TextChar(k[i]) && k[i] !in " '\""
  {
    ControlMeans(k);
  }

  lemma {:induction false} ExcludesMean(es: seq<string>)
    ensures (forall k :: 0 <= k < |es| ==> !HasControl(es[k])) <==>
            (forall k, i :: 0 <= k < |es| && 0 <= i < |es[k]| ==> TextChar(es[k][i]))
  {
    forall k | 0 <= k < |es|
      ensures !HasControl(es[k]) <==> forall i :: 0 <= i < |es[k]| ==> TextChar(es[k][i])
    {
      ControlMeans(es[k]);
    }
  }

  lemma {:induction false} ValidMeansFieldsHold(ip: string -> bool, readable: string -> bool, j: Job)
    requires IPContract(ip)
    ensures ValidJob(ip, readable, j) <==> FieldsHold(ip, readable, j)
  {
    ControlMeans(j.local);
    ControlMeans(j.name);
    PathMeans(j.remotePath);
    KeyMeans(j.sshKey);
    ExcludesMean(j.excludes);
  }

  /** The error is true of the job and names the field at fault. */
  ghost predicate Blames(ip: string -> bool, readable: string -> bool, j: Job, e: JobError) {
    match e
    case Required(f) =>
      || (f == "local" && j.local == "") || (f == "remote_host" && j.remoteHost == "")
      || (f == "remote_path" && j.remotePath == "") || (f == "ssh_key" && j.sshKey == "")
    case NotAbsolute(f) =>
      || (f == "local" && j.local != "" && j.local[0] != '/')
      || (f == "remote_path" && j.remotePath != "" && j.remotePath[0] != '/')
    case BadHost => !ValidRemoteHost(ip, j.remoteHost)
    case Forbidden(f) =>
      || (f == "remote_path" && exists i :: 0 <= i < |j.remotePath| && !PathChar(j.remotePath[i]))
      || (f == "name" && exists i :: 0 <= i < |j.name| && !TextChar(j.name[i]))
      || (f == "local" && exists i :: 0 <= i < |j.local| && !TextChar(j.local[i]))
      || (f == "ssh_key" && exists i :: 0 <= i < |j.sshKey| && (!TextChar(j.sshKey[i]) || j.sshKey[i] in " '\""))
      || (f == "excludes" && exists k :: 0 <= k < |j.excludes| && HasControl(j.excludes[k]))
    case KeyUnreadable => !readable(j.sshKey)
    case NegativeCap => j.maxDelete.Some? && j.maxDelete.value < 0
    case UnchangedId(f) =>
      || (f == "remote_uid" && j.uid.Some? && j.uid.value == 4294967295)
      || (f == "remote_gid" && j.gid.Some? && j.gid.value == 4294967295)
  }

  method ValidateJob(ip: string -> bool, readable: string -> bool, j: Job) returns (e: Option<JobError>)
    ensures e.None? <==> ValidJob(ip, readable, j)
    ensures e.Some? ==> Blames(ip, readable, j, e.value)
  {
    e := CheckRequiredFields(j);
    if e.Some? { return; }
    if !IsAbs(j.local) { return Some(NotAbsolute("local")); }
    if !IsAbs(j.remotePath) { return Some(NotAbsolute("remote_path")); }
    if !ValidRemoteHost(ip, j.remoteHost) { return Some(BadHost); }
    e := CheckNoForbiddenChars(j);
    if e.Some? { return; }
    if !readable(j.sshKey) { return Some(KeyUnreadable); }
    if j.maxDelete.Some? && j.maxDelete.value < 0 { return Some(NegativeCap); }
    e := CheckOwnership(j);
  }

  // ---- the whole file ----

  datatype ConfigError = NoJobs | NoName(i: nat) | DuplicateName(i: nat) | BadJob(i: nat, e: JobError)

  ghost predicate DistinctNames(jobs: seq<Job>) {
    forall i, k :: 0 <= i < k < |jobs| ==> jobs[i].name != jobs[k].name
  }

  /** Every job is named, valid and named apart from the others. */
  ghost predicate ValidJobs(ip: string -> bool, readable: string -> bool, jobs: seq<Job>) {
    && (forall i :: 0 <= i < |jobs| ==> jobs[i].name != "" && ValidJob(ip, readable, jobs[i]))
    && DistinctNames(jobs)
  }

  ghost predicate ListBlames(ip: string -> bool, readable: string -> bool, jobs: seq<Job>, e: ConfigError) {
    match e
    case NoJobs => jobs == []
    case NoName(i) => i < |jobs| && jobs[i].name == ""
    case DuplicateName(i) => i < |jobs| && exists k :: 0 <= k < i && jobs[k].name == jobs[i].name
    case BadJob(i, je) => i < |jobs| && Blames(ip, readable, jobs[i], je)
  }

  /** Accepts exactly the nonempty lists of valid, differently named jobs; otherwise points at
      the first job with which the list stops being one. */
  method Validate(ip: string -> bool, readable: string -> bool, jobs: seq<Job>) returns (e: Option<ConfigError>)
    ensures e.None? <==> jobs != [] && ValidJobs(ip, readable, jobs)
    ensures e.Some? && jobs != [] ==>
              && !e.value.NoJobs? && e.value.i < |jobs|
              && ValidJobs(ip, readable, jobs[..e.value.i]) && !ValidJobs(ip, readable, jobs[..e.value.i + 1])
    ensures e.Some? && jobs != [] ==> ListBlames(ip, readable, jobs, e.value)
  {
    if |jobs| == 0 {
      return Some(NoJobs);
    }
    var seen: set<string> := {};
    for i := 0 to |jobs|
      invariant ValidJobs(ip, readable, jobs[..i])
      invariant forall n :: n in seen <==> exists k :: 0 <= k < i && jobs[k].name == n
    {
      var j := jobs[i];
      ValidStep(ip, readable, jobs, i);
      if j.name == "" {
        return Some(NoName(i));
      }
      if j.name in seen {
        return Some(DuplicateName(i));
      }
      seen := seen + {j.name};
      var je := ValidateJob(ip, readable, j);
      if je.Some? {
        return Some(BadJob(i, je.value));
      }
    }
    assert jobs[..|jobs|] == jobs;
    return None;
  }

  ghost predicate NewName(jobs: seq<Job>, i: nat)
    requires i < |jobs|
  {
    forall k :: 0 <= k < i ==> jobs[k].name != jobs[i].name
  }

  lemma {:induction false} ValidStep(ip: string -> bool, readable: string -> bool, jobs: seq<Job>, i: nat)
    requires i < |jobs| && ValidJobs(ip, readable, jobs[..i])
    ensures ValidJobs(ip, readable, jobs[..i + 1]) <==>
            jobs[i].name != "" && NewName(jobs, i) && ValidJob(ip, readable, jobs[i])
    ensures !ValidJobs(ip, readable, jobs[..i + 1]) ==> !ValidJobs(ip, readable, jobs)
  {
  }

  // ---- advisories on inert settings ----

  predicate CapIsInert(j: Job) { j.maxDelete.Some? && !j.delete }

  predicate OwnerIsInert(j: Job) { j.uid.Some? != j.gid.Some? }

  predicate ExcludeIsInert(j: Job) { "" in j.excludes }
}
