/** The host-key posture, decided by whether the mounted known_hosts has an entry. */
module KnownHosts {
  import opened Options
  import opened RemoteShell
  import opened Text

  /** What opening the path found; a readable file is its decoded characters, ending at end of
      file or at a read error. */
  datatype Mount = Missing | NotRegular | OpenFailed | Opened(runes: string, readFails: bool)

  /** Unicode white space. */
  predicate IsSpace(c: char) {
    var n := c as int;
    || 0x09 <= n <= 0x0D || n == 0x20 || n == 0x85 || n == 0xA0 || n == 0x1680
    || 0x2000 <= n <= 0x200A || n == 0x2028 || n == 0x2029 || n == 0x202F || n == 0x205F || n == 0x3000
  }

  lemma {:induction false} SpaceMeans(c: char)
    ensures IsSpace(c) <==>
            c as int in {0x09, 0x0A, 0x0B, 0x0C, 0x0D, 0x20, 0x85, 0xA0, 0x1680, 0x2000, 0x2001, 0x2002, 0x2003,
                         0x2004, 0x2005, 0x2006, 0x2007, 0x2008, 0x2009, 0x200A, 0x2028, 0x2029, 0x202F, 0x205F, 0x3000}
  {
  }

  // ---- the meaning ----

  function Lines(s: string): seq<string> { Split(s, '\n') }

  function TrimLeft(line: string): string {
    if line != "" && IsSpace(line[0]) then TrimLeft(line[1..]) else line
  }

  /** A line with something on it that is not a comment. */
  predicate IsEntry(line: string) {
    var t := TrimLeft(line); t != "" && t[0] != '#'
  }

  ghost predicate HasEntry(lines: seq<string>) {
    exists i :: 0 <= i < |lines| && IsEntry(lines[i])
  }

  // ---- the scanner ----

  /** The scan from a point inside a line, with what is left of the input. */
  predicate Finds(s: string, inComment: bool) {
    if s == "" then false
    else if s[0] == '\n' then Finds(s[1..], false)
    else if inComment || IsSpace(s[0]) then Finds(s[1..], inComment)
    else if s[0] == '#' then Finds(s[1..], true)
    else true
  }

  /** No posture means that the daemon refuses to start. */
  method Classify(mount: Mount) returns (p: Option<HostKeys>)
    ensures mount.Missing? ==> p == Some(AcceptNew)
    ensures mount.NotRegular? || mount.OpenFailed? ==> p == None
    ensures mount.Opened? ==> p == if HasEntry(Lines(mount.runes)) then Some(Strict) else None
  {
    if mount.Missing? {
      return Some(AcceptNew);
    }
    if mount.NotRegular? || mount.OpenFailed? {
      return None;
    }
    FindsIsExact(mount.runes);
    var inComment := false;
    for i := 0 to |mount.runes|
      invariant Finds(mount.runes[i..], inComment) == Finds(mount.runes, false)
    {
      var r := mount.runes[i];
      assert mount.runes[i..][1..] == mount.runes[i + 1..];
      if r == '\n' {
        inComment := false;
      } else if inComment || IsSpace(r) {
      } else if r == '#' {
        inComment := true;
      } else {
        return Some(Strict);
      }
    }
    return None;
  }

  lemma {:induction false} EntryInTail(first: string, rest: seq<string>)
    ensures HasEntry([first] + rest) <==> IsEntry(first) || HasEntry(rest)
  {
    var all := [first] + rest;
    if HasEntry(rest) {
      var i :| 0 <= i < |rest| && IsEntry(rest[i]);
      assert all[i + 1] == rest[i];
    }
    if HasEntry(all) {
      var i :| 0 <= i < |all| && IsEntry(all[i]);
      if i > 0 {
        assert all[i] == rest[i - 1];
      }
    }
    assert all[0] == first;
  }

  /** For input of any length: outside a comment the scan finds an entry on this line or a later
      one; inside a comment, on a later one. */
  lemma {:induction false} ScanMeansEntry(s: string)
    ensures Finds(s, false) <==> HasEntry(Lines(s))
    ensures Finds(s, true) <==> HasEntry(Lines(s)[1..])
  {
    var lines := Lines(s);
    if s == "" {
      assert !IsEntry("");
    } else {
      ScanMeansEntry(s[1..]);
      var rest := Lines(s[1..]);
      EntryInTail(rest[0], rest[1..]);
      assert [rest[0]] + rest[1..] == rest;
      if s[0] == '\n' {
        EntryInTail("", rest);
        assert lines[1..] == rest;
      } else {
        EntryInTail([s[0]] + rest[0], rest[1..]);
        assert lines[1..] == rest[1..];
        FirstChar(s[0], rest[0]);
      }
    }
  }

  lemma {:induction false} FirstChar(c: char, line: string)
    ensures IsEntry([c] + line) <==> if IsSpace(c) then IsEntry(line) else c != '#'
  {
  }

  lemma {:induction false} FindsIsExact(s: string)
    ensures Finds(s, false) <==> HasEntry(Lines(s))
  {
    ScanMeansEntry(s);
  }
}
