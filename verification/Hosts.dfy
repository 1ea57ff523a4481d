/** remote_host: its two parts, what is accepted, and rsync's destination argument.

    net.ParseIP enters as the predicate `ip`; all that is used of it is that an accepted
    address is nonempty and made of hexadecimal digits, dots and colons. */
module Hosts {
  import opened Options

  predicate AddressChar(c: char) {
    '0' <= c <= '9' || 'a' <= c <= 'f' || 'A' <= c <= 'F' || c == '.' || c == ':'
  }

  ghost predicate IPContract(ip: string -> bool) {
    forall s :: ip(s) ==> s != "" && forall i :: 0 <= i < |s| ==> AddressChar(s[i])
  }

  lemma {:induction false} AddressMeans(c: char)
    ensures AddressChar(c) <==> c in "0123456789abcdefABCDEF.:"
  {
  }

  predicate Alnum(c: char) {
    '0' <= c <= '9' || 'a' <= c <= 'z' || 'A' <= c <= 'Z'
  }

  predicate NameChar(c: char) {
    Alnum(c) || c == '.' || c == '_' || c == '-'
  }

  /** userRE and hostnameRE. */
  predicate IsName(s: string) {
    s != "" && Alnum(s[0]) && forall i :: 0 <= i < |s| ==> NameChar(s[i])
  }

  const DIGITS := "0123456789"
  const UPPER := "ABCDEFGHIJKLMNOPQRSTUVWXYZ"
  const LOWER := "abcdefghijklmnopqrstuvwxyz"

  lemma {:induction false} DigitMeans(c: char)
    ensures '0' <= c <= '9' <==> c in DIGITS
  {
  }

  lemma {:induction false} UpperMeans(c: char)
    ensures 'A' <= c <= 'Z' <==> c in UPPER
  {
  }

  lemma {:induction false} LowerMeans(c: char)
    ensures 'a' <= c <= 'z' <==> c in LOWER
  {
  }

  /** The two expressions, written out: [A-Za-z0-9][A-Za-z0-9._-]* over the whole text. */
  lemma {:induction false} NameMeans(s: string)
    ensures IsName(s) <==>
            && s != "" && (s[0] in DIGITS || s[0] in UPPER || s[0] in LOWER)
            && (forall i :: 0 <= i < |s| ==> s[i] in DIGITS || s[i] in UPPER || s[i] in LOWER || s[i] in "._-")
  {
    forall i | 0 <= i < |s|
      ensures Alnum(s[i]) <==> s[i] in DIGITS || s[i] in UPPER || s[i] in LOWER
    {
      DigitMeans(s[i]);
      UpperMeans(s[i]);
      LowerMeans(s[i]);
    }
  }

  /** Index of the first char of s that is in `stops`, |s| if there is none. */
  function Scan(s: string, stops: string): (i: nat)
    ensures i <= |s|
    ensures forall k :: 0 <= k < i ==> s[k] !in stops
    ensures i < |s| ==> s[i] in stops
  {
    if s == "" || s[0] in stops then 0 else 1 + Scan(s[1..], stops)
  }

  lemma {:induction false} ScanUnique(s: string, stops: string, i: nat)
    requires i <= |s|
    requires forall k :: 0 <= k < i ==> s[k] !in stops
    requires i < |s| ==> s[i] in stops
    ensures Scan(s, stops) == i
  {
  }

  // ---- the code ----

  datatype Remote = Remote(user: string, host: string)

  function Unbracket(ip: string -> bool, host: string): string {
    if |host| >= 2 && host[0] == '[' && host[|host| - 1] == ']' && ip(host[1..|host| - 1])
    then host[1..|host| - 1] else host
  }

  function SplitRemoteHost(ip: string -> bool, raw: string): Remote {
    var at := Scan(raw, "@");
    if at < |raw| then Remote(raw[..at], Unbracket(ip, raw[at + 1..])) else Remote("", Unbracket(ip, raw))
  }

  predicate ValidRemoteHost(ip: string -> bool, raw: string) {
    var r := SplitRemoteHost(ip, raw);
    ('@' in raw ==> IsName(r.user)) && (ip(r.host) || IsName(r.host))
  }

  /** The text before the separating colon. */
  function HostPart(r: Remote): string {
    var host := if ':' in r.host then "[" + r.host + "]" else r.host;
    if r.user != "" then r.user + "@" + host else host
  }

  function RemoteDest(ip: string -> bool, raw: string, path: string): string {
    HostPart(SplitRemoteHost(ip, raw)) + ":" + path + "/"
  }

  // ---- a reader of [user@]host:path ----

  datatype Dest = Dest(user: string, host: string, path: string)

  /** Left to right: a login up to '@', a bracketed address or a name up to ':', then the path. */
  function ReadDest(s: string): Option<Dest> {
    var i := Scan(s, "@:[");
    if i < |s| && s[i] == '@' then ReadHost(s[..i], s[i + 1..]) else ReadHost("", s)
  }

  function ReadHost(user: string, s: string): Option<Dest> {
    if s != "" && s[0] == '[' then
      var close := Scan(s, "]");
      if close + 1 < |s| && s[close + 1] == ':' then Some(Dest(user, s[1..close], s[close + 2..])) else None
    else
      var colon := Scan(s, ":");
      if colon < |s| then Some(Dest(user, s[..colon], s[colon + 1..])) else None
  }

  /** A host as it may be written: a name, an address, or an address in brackets. */
  predicate HostForm(ip: string -> bool, h: string) {
    IsName(h) || ip(h) || (|h| >= 2 && h[0] == '[' && h[|h| - 1] == ']' && ip(h[1..|h| - 1]))
  }

  lemma {:induction false} UnbracketText(ip: string -> bool, h: string)
    ensures var host := Unbracket(ip, h); h == host || (ip(host) && h == "[" + host + "]")
  {
  }

  /** The login as written, with its '@'. */
  function Login(raw: string, user: string): string {
    if '@' in raw then user + "@" else ""
  }

  /** The two parts are the text: the login is what stands before the first '@', and the host is
      the rest, less brackets around an address and nothing else. */
  lemma {:induction false} SplitIsTheText(ip: string -> bool, raw: string) returns (h: string)
    ensures var r := SplitRemoteHost(ip, raw);
            && raw == Login(raw, r.user) + h
            && (h == r.host || (ip(r.host) && h == "[" + r.host + "]"))
            && '@' !in r.user && ('@' !in raw ==> r.user == "")
  {
    var at := Scan(raw, "@");
    if at < |raw| {
      h := raw[at + 1..];
      CutText(raw, at);
    } else {
      h := raw;
    }
    UnbracketText(ip, h);
  }

  lemma {:induction false} CutText(raw: string, at: nat)
    requires at < |raw| && raw[at] == '@'
    ensures raw == (raw[..at] + "@") + raw[at + 1..] && '@' in raw
  {
  }

  lemma {:induction false} UnbracketForm(ip: string -> bool, h: string)
    requires IPContract(ip)
    ensures HostForm(ip, h) <==> ip(Unbracket(ip, h)) || IsName(Unbracket(ip, h))
  {
  }

  lemma {:induction false} FormHasNoAt(ip: string -> bool, h: string)
    requires IPContract(ip) && HostForm(ip, h)
    ensures '@' !in h
  {
    if !IsName(h) && !ip(h) {
      assert h == "[" + h[1..|h| - 1] + "]";
    }
  }

  predicate LoginAt(ip: string -> bool, raw: string, i: nat) {
    i < |raw| && raw[i] == '@' && IsName(raw[..i]) && HostForm(ip, raw[i + 1..])
  }

  /** What is accepted, as a grammar: a host form, with or without a login name and '@' before it. */
  lemma {:induction false} AcceptedGrammar(ip: string -> bool, raw: string)
    requires IPContract(ip)
    ensures ValidRemoteHost(ip, raw) <==> HostForm(ip, raw) || exists i: nat :: LoginAt(ip, raw, i)
  {
    var at := Scan(raw, "@");
    if at < |raw| {
      assert raw[at] in raw;
      UnbracketForm(ip, raw[at + 1..]);
      if HostForm(ip, raw) {
        FormHasNoAt(ip, raw);
      }
      assert ValidRemoteHost(ip, raw) <==> LoginAt(ip, raw, at);
      forall i: nat | LoginAt(ip, raw, i)
        ensures i == at
      {
        LoginIsFirst(ip, raw, i);
      }
    } else {
      UnbracketForm(ip, raw);
    }
  }

  lemma {:induction false} LoginIsFirst(ip: string -> bool, raw: string, i: nat)
    requires LoginAt(ip, raw, i)
    ensures i == Scan(raw, "@")
  {
    assert forall k :: 0 <= k < i ==> raw[k] == raw[..i][k];
    ScanUnique(raw, "@", i);
  }

  /** What validation leaves of the two parts. */
  predicate PlainHost(host: string) {
    host != "" && forall i :: 0 <= i < |host| ==> NameChar(host[i]) || host[i] == ':'
  }

  lemma {:induction false} ValidParts(ip: string -> bool, raw: string)
    requires IPContract(ip) && ValidRemoteHost(ip, raw)
    ensures var r := SplitRemoteHost(ip, raw);
            (r.user == "" || IsName(r.user)) && (r.user == "" <==> '@' !in raw) && PlainHost(r.host)
  {
  }

  lemma {:induction false} ReadBracketed(user: string, host: string, path: string)
    requires ']' !in host
    ensures ReadHost(user, "[" + host + "]" + ":" + path) == Some(Dest(user, host, path))
  {
    var s := "[" + host + "]" + ":" + path;
    var n := |host|;
    assert s[0] == '[' && s[n + 1] == ']' && s[n + 2] == ':';
    forall k | 0 <= k < n + 1
      ensures s[k] != ']'
    {
      if k > 0 {
        assert s[k] == host[k - 1];
      }
    }
    ScanUnique(s, "]", n + 1);
    assert s[1..n + 1] == host;
    assert s[n + 3..] == path;
  }

  lemma {:induction false} ReadUnbracketed(user: string, host: string, path: string)
    requires host != "" && host[0] != '[' && ':' !in host
    ensures ReadHost(user, host + ":" + path) == Some(Dest(user, host, path))
  {
    var s := host + ":" + path;
    assert forall k :: 0 <= k < |host| ==> s[k] == host[k];
    assert forall k :: 0 <= k < |host| ==> host[k] in host;
    ScanUnique(s, ":", |host|);
    assert s[..|host|] == host;
    assert s[|host| + 1..] == path;
  }

  lemma {:induction false} ReadPlainHost(user: string, host: string, path: string)
    requires PlainHost(host)
    ensures ReadHost(user, HostPart(Remote("", host)) + ":" + path) == Some(Dest(user, host, path))
  {
    if ':' in host {
      ReadBracketed(user, host, path);
    } else {
      ReadUnbracketed(user, host, path);
    }
  }

  lemma {:induction false} ReadLogin(user: string, rest: string)
    requires IsName(user)
    ensures ReadDest(user + "@" + rest) == ReadHost(user, rest)
  {
    var s := user + "@" + rest;
    assert forall k :: 0 <= k < |user| ==> s[k] == user[k];
    ScanUnique(s, "@:[", |user|);
    assert s[..|user|] == user;
    assert s[|user| + 1..] == rest;
  }

  lemma {:induction false} Regroup(user: string, host: string, path: string)
    ensures (user + "@" + host) + ":" + path == user + "@" + (host + ":" + path)
  {
  }

  lemma {:induction false} ReadWithoutLogin(host: string, path: string)
    requires PlainHost(host)
    ensures ReadDest(HostPart(Remote("", host)) + ":" + path) == Some(Dest("", host, path))
  {
    NoLogin(host, path);
    ReadPlainHost("", host, path);
  }

  lemma {:induction false} ReadWithLogin(user: string, host: string, path: string)
    requires IsName(user) && PlainHost(host)
    ensures ReadDest((user + "@" + HostPart(Remote("", host))) + ":" + path) == Some(Dest(user, host, path))
  {
    var part := HostPart(Remote("", host));
    Regroup(user, part, path);
    ReadLogin(user, part + ":" + path);
    ReadPlainHost(user, host, path);
  }

  lemma {:induction false} ReadPlainDest(r: Remote, path: string)
    requires (r.user == "" || IsName(r.user)) && PlainHost(r.host)
    ensures ReadDest(HostPart(r) + ":" + path) == Some(Dest(r.user, r.host, path))
  {
    if r.user == "" {
      ReadWithoutLogin(r.host, path);
      assert r == Remote("", r.host);
    } else {
      ReadWithLogin(r.user, r.host, path);
    }
  }

  /** Without a login the first stop is the address bracket or the separating colon, never an
      '@' inside the path. */
  lemma {:induction false} NoLogin(host: string, path: string)
    requires PlainHost(host)
    ensures var s := HostPart(Remote("", host)) + ":" + path;
            var i := Scan(s, "@:["); i < |s| && s[i] != '@'
  {
    var s := HostPart(Remote("", host)) + ":" + path;
    if ':' in host {
      ScanUnique(s, "@:[", 0);
    } else {
      assert forall k :: 0 <= k < |host| ==> s[k] == host[k] && host[k] in host;
      ScanUnique(s, "@:[", |host|);
    }
  }

  /** For every accepted remote_host and every path, whatever '@' or ':' the path holds, the
      reader gets back exactly the login, the host and the path with its slash. */
  lemma {:induction false} DestRoundTrip(ip: string -> bool, raw: string, path: string)
    requires IPContract(ip) && ValidRemoteHost(ip, raw)
    ensures var r := SplitRemoteHost(ip, raw);
            ReadDest(RemoteDest(ip, raw, path)) == Some(Dest(r.user, r.host, path + "/"))
  {
    ValidParts(ip, raw);
    var r := SplitRemoteHost(ip, raw);
    ReadPlainDest(r, path + "/");
    assert HostPart(r) + ":" + path + "/" == HostPart(r) + ":" + (path + "/");
  }

  /** Every colon before the separator is between the one '[' and the one ']'. */
  ghost predicate ColonsBracketed(s: string) {
    forall i :: 0 <= i < |s| && s[i] == ':' ==>
      (exists j :: 0 <= j < i && s[j] == '[') && s[|s| - 1] == ']'
  }

  lemma {:induction false} HostPartColons(lead: string, host: string)
    requires ':' !in lead
    ensures ColonsBracketed(lead + (if ':' in host then "[" + host + "]" else host))
  {
    if ':' in host {
      var part := lead + ("[" + host + "]");
      assert part[|lead|] == '[';
      assert forall i :: 0 <= i < |lead| ==> part[i] == lead[i];
    } else {
      var part := lead + host;
      forall i | 0 <= i < |part|
        ensures part[i] != ':'
      {
        assert part[i] == if i < |lead| then lead[i] else host[i - |lead|];
      }
    }
  }

  lemma {:induction false} ValidColons(r: Remote)
    requires r.user == "" || IsName(r.user)
    ensures ColonsBracketed(HostPart(r))
  {
    var host := if ':' in r.host then "[" + r.host + "]" else r.host;
    if r.user == "" {
      HostPartColons("", r.host);
      assert "" + host == host;
    } else {
      HostPartColons(r.user + "@", r.host);
    }
  }

  lemma {:induction false} SlashAfterColon(part: string, path: string)
    requires path != "" && path[0] == '/'
    ensures var dest := part + ":" + path + "/";
            part < dest && dest[|part|] == ':' && dest[|part| + 1] == '/'
  {
  }

  /** rsync can never read the destination as its "::" daemon form: outside brackets there is a
      single colon, and an absolute path puts a slash right after it. */
  lemma {:induction false} NoDaemonSeparator(ip: string -> bool, raw: string, path: string)
    requires IPContract(ip) && ValidRemoteHost(ip, raw) && path != "" && path[0] == '/'
    ensures var part := HostPart(SplitRemoteHost(ip, raw));
            var dest := RemoteDest(ip, raw, path);
            ColonsBracketed(part) && part < dest && dest[|part|] == ':' && dest[|part| + 1] == '/'
  {
    ValidParts(ip, raw);
    ValidColons(SplitRemoteHost(ip, raw));
    SlashAfterColon(HostPart(SplitRemoteHost(ip, raw)), path);
  }

  /** Writing an address with or without brackets is the same setting. */
  lemma {:induction false} BracketsAreOptional(ip: string -> bool, addr: string, path: string)
    requires IPContract(ip) && ip(addr)
    ensures ValidRemoteHost(ip, addr) && ValidRemoteHost(ip, "[" + addr + "]")
    ensures RemoteDest(ip, "[" + addr + "]", path) == RemoteDest(ip, addr, path)
  {
    var b := "[" + addr + "]";
    assert forall i :: 0 < i <= |addr| ==> b[i] == addr[i - 1];
    assert '@' !in addr && '@' !in b;
    ScanUnique(addr, "@", |addr|);
    ScanUnique(b, "@", |b|);
    assert b[1..|b| - 1] == addr;
    assert addr[0] != '[';
  }
}
