/** The rsync argument list of a job, a reader of such lists, and the round trip between them. */
module RsyncArgs {
  import opened Options
  import opened Numbers
  import opened Hosts
  import opened Config
  import opened RemoteShell

  /** compress is "" for off, "auto", or the name of an algorithm. */
  datatype Transport = Transport(compress: string, hostKeys: HostKeys, acls: bool, xattrs: bool)

  const AUTO := "auto"
  const GLOBAL_EXCLUDES := [".stfolder", ".stversions", ".DS_Store", "Thumbs.db"]

  const CHOICE := "--compress-choice="
  const MAX_DELETE := "--max-delete="
  const CHOWN := "--chown="
  const FILTER := "--filter=- "

  // ---- the reader ----

  /** One argument, by its shape alone. */
  datatype Token =
    | Base | Acls | Xattrs | Compress | Choice(name: string) | Delete | Cap(n: string) | Chown(ids: string)
    | Super | Stats | Shell | Filter(pattern: string) | EndOfOptions | Unknown

  function Drop(a: string, prefix: string): string
    requires prefix <= a
  {
    a[|prefix|..]
  }

  function Tokenize(a: string): Token {
    if a == "-rlptD" then Base
    else if a == "-A" then Acls
    else if a == "-X" then Xattrs
    else if a == "-z" then Compress
    else if a == "-e" then Shell
    else if a == "--" then EndOfOptions
    else if a == "--delete" then Delete
    else if a == "--super" then Super
    else if a == "--stats" then Stats
    else if CHOICE <= a then Choice(Drop(a, CHOICE))
    else if MAX_DELETE <= a then Cap(Drop(a, MAX_DELETE))
    else if CHOWN <= a then Chown(Drop(a, CHOWN))
    else if FILTER <= a then Filter(Drop(a, FILTER))
    else Unknown
  }

  /** What a list of arguments asks for. */
  datatype Request = Request(
    base: bool, stats: bool, super: bool, acls: bool, xattrs: bool, compress: string, delete: bool,
    cap: Option<nat>, owner: Option<(nat, nat)>, shell: string, excludes: seq<string>, source: string, dest: string)

  const NOTHING := Request(false, false, false, false, false, "", false, None, None, "", [], "", "")

  function ReadOwner(ids: string): Option<(nat, nat)> {
    var colon := Scan(ids, ":");
    if colon == |ids| then None
    else
      match (ReadNat(ids[..colon]), ReadNat(ids[colon + 1..]))
      case (Some(u), Some(g)) => Some((u, g))
      case _ => None
  }

  /** What one option adds to the request; nothing for a malformed value. */
  function Apply(r: Request, t: Token): Option<Request> {
    match t
    case Base => Some(r.(base := true))
    case Acls => Some(r.(acls := true))
    case Xattrs => Some(r.(xattrs := true))
    case Compress => Some(r.(compress := AUTO))
    case Choice(name) => Some(r.(compress := name))
    case Delete => Some(r.(delete := true))
    case Cap(n) => (match ReadNat(n) case Some(k) => Some(r.(cap := Some(k))) case None => None)
    case Chown(ids) => (match ReadOwner(ids) case Some(o) => Some(r.(owner := Some(o))) case None => None)
    case Super => Some(r.(super := true))
    case Stats => Some(r.(stats := true))
    case Filter(pattern) => Some(r.(excludes := r.excludes + [pattern]))
    case _ => None
  }

  /** Left to right: -e takes the next argument, -- ends the options and leaves two paths. */
  function Read(args: seq<string>, r: Request): Option<Request>
    decreases |args|
  {
    if args == [] then None
    else
      match Tokenize(args[0])
      case EndOfOptions => if |args| == 3 then Some(r.(source := args[1], dest := args[2])) else None
      case Shell => if |args| >= 2 then Read(args[2..], r.(shell := args[1])) else None
      case t => (match Apply(r, t) case Some(r') => Read(args[1..], r') case None => None)
  }

  // ---- the printer ----

  function When(on: bool, args: seq<string>, more: seq<string>): seq<string> {
    if on then args + more else args
  }

  function PrintInt(n: int): string {
    if n < 0 then "-" + Decimal(-n) else Decimal(n)
  }

  function PrintOwner(uid: nat, gid: nat): string {
    Decimal(uid) + ":" + Decimal(gid)
  }

  function TransportArgs(tr: Transport): seq<string> {
    var a := When(tr.acls, ["-rlptD"], ["-A"]);
    var b := When(tr.xattrs, a, ["-X"]);
    var c := When(tr.compress != "", b, ["-z"]);
    When(tr.compress != "" && tr.compress != AUTO, c, [CHOICE + tr.compress])
  }

  /** The cap is printed only for a deleting job. */
  function DeleteArgs(args: seq<string>, j: Job): seq<string> {
    if !j.delete then args
    else
      var a := args + ["--delete"];
      if j.maxDelete.Some? then a + [MAX_DELETE + PrintInt(j.maxDelete.value)] else a
  }

  /** Ownership is printed only for a complete pair. */
  function OwnerArgs(args: seq<string>, j: Job): seq<string> {
    if j.uid.Some? && j.gid.Some?
    then args + [CHOWN + PrintOwner(j.uid.value, j.gid.value)] + ["--super"] else args
  }

  /** One filter rule per pattern, empty patterns skipped. */
  function FilterArgs(args: seq<string>, es: seq<string>): seq<string> {
    if es == [] then args
    else
      var e := es[|es| - 1];
      When(e != "", FilterArgs(args, es[..|es| - 1]), [FILTER + e])
  }

  function ArgsOf(ip: string -> bool, j: Job, tr: Transport): seq<string> {
    var options := OwnerArgs(DeleteArgs(TransportArgs(tr), j), j);
    var shell := options + ["--stats"] + ["-e", SshCommand(j.sshKey, tr.hostKeys)];
    FilterArgs(FilterArgs(shell, GLOBAL_EXCLUDES), j.excludes) +
    ["--", j.local + "/", RemoteDest(ip, j.remoteHost, j.remotePath)]
  }

  method BuildRsyncArgs(ip: string -> bool, j: Job, tr: Transport) returns (args: seq<string>)
    ensures args == ArgsOf(ip, j, tr)
    ensures (j.maxDelete.Some? ==> j.maxDelete.value >= 0) ==> Read(args, NOTHING) == Some(RequestOf(ip, j, tr))
  {
    if j.maxDelete.Some? ==> j.maxDelete.value >= 0 {
      ArgsRead(ip, j, tr);
    }
    args := AppendAll(ip, j, tr);
  }

  method AppendAll(ip: string -> bool, j: Job, tr: Transport) returns (args: seq<string>)
    ensures args == ArgsOf(ip, j, tr)
  {
    args := ["-rlptD"];
    if tr.acls {
      args := args + ["-A"];
    }
    if tr.xattrs {
      args := args + ["-X"];
    }
    if tr.compress != "" {
      args := args + ["-z"];
      if tr.compress != AUTO {
        args := args + [CHOICE + tr.compress];
      }
    }
    if j.delete {
      args := args + ["--delete"];
      if j.maxDelete.Some? {
        args := args + [MAX_DELETE + PrintInt(j.maxDelete.value)];
      }
    }
    if j.uid.Some? && j.gid.Some? {
      args := args + [CHOWN + PrintOwner(j.uid.value, j.gid.value)] + ["--super"];
    }
    args := args + ["--stats"] + ["-e", SshCommand(j.sshKey, tr.hostKeys)];
    args := AppendFilters(args, GLOBAL_EXCLUDES);
    args := AppendFilters(args, j.excludes);
    args := args + ["--", j.local + "/", RemoteDest(ip, j.remoteHost, j.remotePath)];
  }

  /** Both filter loops; the built-in list has no empty pattern to skip. */
  method AppendFilters(before: seq<string>, es: seq<string>) returns (args: seq<string>)
    ensures args == FilterArgs(before, es)
  {
    args := before;
    for i := 0 to |es|
      invariant args == FilterArgs(before, es[..i])
    {
      assert es[..i + 1][..i] == es[..i];
      if es[i] != "" {
        args := args + [FILTER + es[i]];
      }
    }
    assert es[..|es|] == es;
  }

  // ---- the text of the list ----

  lemma {:induction false} GlobalFilters(args: seq<string>)
    ensures FilterArgs(args, GLOBAL_EXCLUDES) ==
            args + ["--filter=- .stfolder", "--filter=- .stversions", "--filter=- .DS_Store", "--filter=- Thumbs.db"]
  {
    var g := GLOBAL_EXCLUDES;
    assert g[..3][..2] == g[..2] && g[..2][..1] == g[..1] && g[..1][..0] == [];
    FilterText();
    assert FilterArgs(args, g[..1]) == args + ["--filter=- .stfolder"];
    assert FilterArgs(args, g[..2]) == args + ["--filter=- .stfolder", "--filter=- .stversions"];
    assert FilterArgs(args, g[..3]) ==
           args + ["--filter=- .stfolder", "--filter=- .stversions", "--filter=- .DS_Store"];
  }

  lemma {:induction false} FilterText()
    ensures FILTER + ".stfolder" == "--filter=- .stfolder" && FILTER + ".stversions" == "--filter=- .stversions"
    ensures FILTER + ".DS_Store" == "--filter=- .DS_Store" && FILTER + "Thumbs.db" == "--filter=- Thumbs.db"
  {
  }

  /** Every option is on. */
  predicate AllOn(j: Job, tr: Transport) {
    && tr.acls && tr.xattrs && tr.compress != "" && tr.compress != "auto"
    && j.delete && j.maxDelete.Some? && j.maxDelete.value >= 0 && j.uid.Some? && j.gid.Some?
  }

  lemma {:induction false} OptionsPrinted(j: Job, tr: Transport)
    requires AllOn(j, tr)
    ensures OwnerArgs(DeleteArgs(TransportArgs(tr), j), j) ==
            ["-rlptD", "-A", "-X", "-z", "--compress-choice=" + tr.compress,
             "--delete", "--max-delete=" + Decimal(j.maxDelete.value),
             "--chown=" + (Decimal(j.uid.value) + ":" + Decimal(j.gid.value)), "--super"]
  {
  }

  lemma {:induction false} FiltersPrinted(args: seq<string>, e: string)
    requires e != ""
    ensures FilterArgs(FilterArgs(args, GLOBAL_EXCLUDES), [e, ""]) ==
            args + ["--filter=- .stfolder", "--filter=- .stversions", "--filter=- .DS_Store", "--filter=- Thumbs.db",
                    "--filter=- " + e]
  {
    GlobalFilters(args);
    var globals := FilterArgs(args, GLOBAL_EXCLUDES);
    assert [e, ""][..1] == [e] && [e][..0] == [];
    assert FilterArgs(globals, [e]) == globals + ["--filter=- " + e];
  }

  /** The list itself, with every option on, a pattern to keep and one to skip. */
  lemma {:induction false} AllOptionsPrinted(ip: string -> bool, j: Job, tr: Transport, e: string)
    requires AllOn(j, tr) && j.excludes == [e, ""] && e != ""
    ensures ArgsOf(ip, j, tr) ==
            ["-rlptD", "-A", "-X", "-z", "--compress-choice=" + tr.compress,
             "--delete", "--max-delete=" + Decimal(j.maxDelete.value),
             "--chown=" + (Decimal(j.uid.value) + ":" + Decimal(j.gid.value)), "--super",
             "--stats", "-e", SshCommand(j.sshKey, tr.hostKeys)] +
            ["--filter=- .stfolder", "--filter=- .stversions", "--filter=- .DS_Store", "--filter=- Thumbs.db",
             "--filter=- " + e] +
            ["--", j.local + "/", RemoteDest(ip, j.remoteHost, j.remotePath)]
  {
    var options := OwnerArgs(DeleteArgs(TransportArgs(tr), j), j);
    OptionsPrinted(j, tr);
    FiltersPrinted(options + ["--stats"] + ["-e", SshCommand(j.sshKey, tr.hostKeys)], e);
  }

  // ---- reading back, option by option ----

  lemma {:induction false} TokenizeChoice(x: string)
    ensures Tokenize(CHOICE + x) == Choice(x)
  {
  }

  lemma {:induction false} TokenizeCap(x: string)
    ensures Tokenize(MAX_DELETE + x) == Cap(x)
  {
    var a := MAX_DELETE + x;
    assert a[2] == 'm';
    assert a[|MAX_DELETE|..] == x;
  }

  lemma {:induction false} TokenizeChown(x: string)
    ensures Tokenize(CHOWN + x) == Chown(x)
  {
    var a := CHOWN + x;
    assert a[2] == 'c' && a[3] == 'h';
    assert a[|CHOWN|..] == x;
  }

  lemma {:induction false} TokenizeFilter(x: string)
    ensures Tokenize(FILTER + x) == Filter(x)
  {
    var a := FILTER + x;
    assert a[2] == 'f';
    assert a[|FILTER|..] == x;
  }

  lemma {:induction false} TokenizeShort()
    ensures Tokenize("-rlptD") == Base && Tokenize("-A") == Acls
    ensures Tokenize("-X") == Xattrs && Tokenize("-z") == Compress
    ensures Tokenize("-e") == Shell && Tokenize("--") == EndOfOptions
  {
  }

  lemma {:induction false} TokenizeLong()
    ensures Tokenize("--delete") == Delete && Tokenize("--super") == Super && Tokenize("--stats") == Stats
  {
  }

  /** Reading these arguments first amounts to starting from request r. */
  ghost predicate LeadsTo(args: seq<string>, r: Request) {
    forall rest {:induction false} :: Read(args + rest, NOTHING) == Read(rest, r)
  }

  lemma {:induction false} LeadsToNext(args: seq<string>, r: Request, a: string, r': Request)
    requires LeadsTo(args, r)
    requires !Tokenize(a).EndOfOptions? && !Tokenize(a).Shell? && Apply(r, Tokenize(a)) == Some(r')
    ensures LeadsTo(args + [a], r')
  {
    forall rest: seq<string>
      ensures Read(args + [a] + rest, NOTHING) == Read(rest, r')
    {
      assert args + [a] + rest == args + ([a] + rest);
      assert ([a] + rest)[1..] == rest;
    }
  }

  lemma {:induction false} LeadsToShell(args: seq<string>, r: Request, flag: string, command: string)
    requires LeadsTo(args, r) && Tokenize(flag).Shell?
    ensures LeadsTo(args + [flag, command], r.(shell := command))
  {
    forall rest: seq<string>
      ensures Read(args + [flag, command] + rest, NOTHING) == Read(rest, r.(shell := command))
    {
      assert args + [flag, command] + rest == args + ([flag, command] + rest);
      assert ([flag, command] + rest)[2..] == rest;
    }
  }

  lemma {:induction false} LeadsToEnd(args: seq<string>, r: Request, source: string, dest: string)
    requires LeadsTo(args, r)
    ensures Read(args + ["--", source, dest], NOTHING) == Some(r.(source := source, dest := dest))
  {
  }

  lemma {:induction false} LeadsToBase()
    ensures LeadsTo(["-rlptD"], NOTHING.(base := true))
  {
  }

  lemma {:induction false} TransportReads(tr: Transport)
    ensures LeadsTo(TransportArgs(tr),
                    NOTHING.(base := true, acls := tr.acls, xattrs := tr.xattrs, compress := tr.compress))
  {
    TokenizeShort();
    LeadsToBase();
    var a := When(tr.acls, ["-rlptD"], ["-A"]);
    var ra := NOTHING.(base := true, acls := tr.acls);
    if tr.acls {
      LeadsToNext(["-rlptD"], NOTHING.(base := true), "-A", ra);
    }
    var b := When(tr.xattrs, a, ["-X"]);
    var rb := ra.(xattrs := tr.xattrs);
    if tr.xattrs {
      LeadsToNext(a, ra, "-X", rb);
    }
    if tr.compress != "" {
      LeadsToNext(b, rb, "-z", rb.(compress := AUTO));
      if tr.compress != AUTO {
        TokenizeChoice(tr.compress);
        LeadsToNext(b + ["-z"], rb.(compress := AUTO), CHOICE + tr.compress, rb.(compress := tr.compress));
      }
    }
  }

  /** The cap that takes effect. */
  function EffectiveCap(j: Job): Option<nat> {
    if j.delete && j.maxDelete.Some? && j.maxDelete.value >= 0 then Some(j.maxDelete.value) else None
  }

  lemma {:induction false} DeleteReads(args: seq<string>, r: Request, j: Job)
    requires LeadsTo(args, r) && !r.delete && r.cap == None
    requires j.maxDelete.Some? ==> j.maxDelete.value >= 0
    ensures LeadsTo(DeleteArgs(args, j), r.(delete := j.delete, cap := EffectiveCap(j)))
  {
    if j.delete {
      TokenizeLong();
      LeadsToNext(args, r, "--delete", r.(delete := true));
      if j.maxDelete.Some? {
        var n: nat := j.maxDelete.value;
        TokenizeCap(Decimal(n));
        ReadDecimal(n);
        LeadsToNext(args + ["--delete"], r.(delete := true), MAX_DELETE + Decimal(n),
                    r.(delete := true, cap := Some(n)));
      }
    }
  }

  function EffectiveOwner(j: Job): Option<(nat, nat)> {
    if j.uid.Some? && j.gid.Some? then Some((j.uid.value, j.gid.value)) else None
  }

  lemma {:induction false} ReadOwnerPair(uid: nat, gid: nat)
    ensures ReadOwner(PrintOwner(uid, gid)) == Some((uid, gid))
  {
    var u, s := Decimal(uid), PrintOwner(uid, gid);
    assert forall k :: 0 <= k < |u| ==> s[k] == u[k] && IsDigit(u[k]);
    ScanUnique(s, ":", |u|);
    assert s[..|u|] == u;
    assert s[|u| + 1..] == Decimal(gid);
    ReadDecimal(uid);
    ReadDecimal(gid);
  }

  lemma {:induction false} OwnerReads(args: seq<string>, r: Request, j: Job)
    requires LeadsTo(args, r) && r.owner == None && !r.super
    ensures LeadsTo(OwnerArgs(args, j), r.(owner := EffectiveOwner(j), super := EffectiveOwner(j).Some?))
  {
    if j.uid.Some? && j.gid.Some? {
      ReadOwnerPair(j.uid.value, j.gid.value);
      PairReads(args, r, PrintOwner(j.uid.value, j.gid.value), (j.uid.value, j.gid.value));
    }
  }

  lemma {:induction false} PairReads(args: seq<string>, r: Request, pair: string, owner: (nat, nat))
    requires LeadsTo(args, r) && ReadOwner(pair) == Some(owner)
    ensures LeadsTo(args + [CHOWN + pair] + ["--super"], r.(owner := Some(owner), super := true))
  {
    TokenizeLong();
    TokenizeChown(pair);
    var r' := r.(owner := Some(owner));
    LeadsToNext(args, r, CHOWN + pair, r');
    LeadsToNext(args + [CHOWN + pair], r', "--super", r'.(super := true));
  }

  function NonEmpty(es: seq<string>): seq<string> {
    if es == [] then []
    else
      var front := NonEmpty(es[..|es| - 1]);
      if es[|es| - 1] == "" then front else front + [es[|es| - 1]]
  }

  /** Of a list of patterns exactly the empty ones are dropped: the others stay, as often as they
      were there and in the same order. */
  lemma {:induction false} NonEmptyKeepsOrder(es: seq<string>, fs: seq<string>)
    ensures NonEmpty(es + fs) == NonEmpty(es) + NonEmpty(fs)
    decreases |fs|
  {
    if fs == [] {
      assert es + fs == es && NonEmpty(es) + [] == NonEmpty(es);
    } else {
      var front := fs[..|fs| - 1];
      NonEmptyKeepsOrder(es, front);
      assert (es + fs)[..|es + fs| - 1] == es + front;
    }
  }

  lemma {:induction false} NonEmptyKeeps(es: seq<string>, e: string)
    ensures multiset(NonEmpty(es))[e] == if e == "" then 0 else multiset(es)[e]
  {
    if es != [] {
      NonEmptyKeeps(es[..|es| - 1], e);
      assert es == es[..|es| - 1] + [es[|es| - 1]];
    }
  }

  lemma {:induction false} FiltersRead(args: seq<string>, r: Request, es: seq<string>)
    requires LeadsTo(args, r)
    ensures LeadsTo(FilterArgs(args, es), r.(excludes := r.excludes + NonEmpty(es)))
    decreases |es|
  {
    if es == [] {
      assert r.excludes + [] == r.excludes;
    } else {
      var front, e := es[..|es| - 1], es[|es| - 1];
      FiltersRead(args, r, front);
      if e != "" {
        TokenizeFilter(e);
        var r1 := r.(excludes := r.excludes + NonEmpty(front));
        var r2 := r.(excludes := r.excludes + NonEmpty(es));
        assert r1.excludes + [e] == r2.excludes;
        LeadsToNext(FilterArgs(args, front), r1, FILTER + e, r2);
      }
    }
  }

  /** The part of the request that stands before the command. */
  function OptionsOf(j: Job, tr: Transport): Request {
    Request(true, false, EffectiveOwner(j).Some?, tr.acls, tr.xattrs, tr.compress, j.delete,
            EffectiveCap(j), EffectiveOwner(j), "", [], "", "")
  }

  /** What a valid job asks rsync for. */
  function RequestOf(ip: string -> bool, j: Job, tr: Transport): Request {
    Request(true, true, EffectiveOwner(j).Some?, tr.acls, tr.xattrs, tr.compress, j.delete,
            EffectiveCap(j), EffectiveOwner(j), SshCommand(j.sshKey, tr.hostKeys),
            NonEmpty(GLOBAL_EXCLUDES) + NonEmpty(j.excludes), j.local + "/", RemoteDest(ip, j.remoteHost, j.remotePath))
  }

  lemma {:induction false} OptionsRead(j: Job, tr: Transport)
    requires j.maxDelete.Some? ==> j.maxDelete.value >= 0
    ensures LeadsTo(OwnerArgs(DeleteArgs(TransportArgs(tr), j), j),
                    OptionsOf(j, tr))
  {
    var r1 := NOTHING.(base := true, acls := tr.acls, xattrs := tr.xattrs, compress := tr.compress);
    TransportReads(tr);
    DeleteReads(TransportArgs(tr), r1, j);
    OwnerReads(DeleteArgs(TransportArgs(tr), j), r1.(delete := j.delete, cap := EffectiveCap(j)), j);
  }

  lemma {:induction false} RestReads(args: seq<string>, r: Request, command: string, es: seq<string>,
                                     source: string, dest: string)
    requires LeadsTo(args, r) && r.excludes == []
    ensures Read(FilterArgs(FilterArgs(args + ["--stats"] + ["-e", command], GLOBAL_EXCLUDES), es)
                 + ["--", source, dest], NOTHING)
         == Some(r.(stats := true, shell := command, excludes := NonEmpty(GLOBAL_EXCLUDES) + NonEmpty(es),
                    source := source, dest := dest))
  {
    TokenizeLong();
    LeadsToNext(args, r, "--stats", r.(stats := true));
    var a4, r4 := args + ["--stats"] + ["-e", command], r.(stats := true, shell := command);
    TokenizeShort();
    LeadsToShell(args + ["--stats"], r.(stats := true), "-e", command);
    var a5, r5 := FilterArgs(a4, GLOBAL_EXCLUDES), r4.(excludes := [] + NonEmpty(GLOBAL_EXCLUDES));
    FiltersRead(a4, r4, GLOBAL_EXCLUDES);
    var a6, r6 := FilterArgs(a5, es), r5.(excludes := r5.excludes + NonEmpty(es));
    FiltersRead(a5, r5, es);
    LeadsToEnd(a6, r6, source, dest);
    assert [] + NonEmpty(GLOBAL_EXCLUDES) == NonEmpty(GLOBAL_EXCLUDES);
  }

  /** Reading the printed arguments gives the job's request. */
  lemma {:induction false} ArgsRead(ip: string -> bool, j: Job, tr: Transport)
    requires j.maxDelete.Some? ==> j.maxDelete.value >= 0
    ensures Read(ArgsOf(ip, j, tr), NOTHING) == Some(RequestOf(ip, j, tr))
  {
    OptionsRead(j, tr);
    RestReads(OwnerArgs(DeleteArgs(TransportArgs(tr), j), j),
              OptionsOf(j, tr), SshCommand(j.sshKey, tr.hostKeys), j.excludes, j.local + "/",
              RemoteDest(ip, j.remoteHost, j.remotePath));
  }
}
