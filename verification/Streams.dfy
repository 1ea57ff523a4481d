/** rsync's captured output: the bounded tail buffer and the watch for the max-delete
    warning. Streams are text with one char per byte; each writer is proved against a
    one-line meaning over everything written so far. */
module Streams {
  import opened Text

  const DEL_LIMIT_WARN := "Deletions stopped due to --max-delete limit"

  const OUTPUT_CAP: nat := 0x10_0000

  function Flatten(chunks: seq<string>): string {
    if chunks == [] then "" else Flatten(chunks[..|chunks| - 1]) + chunks[|chunks| - 1]
  }

  // ---- the tail buffer ----

  function LastN(s: string, n: nat): (r: string)
    ensures |r| == if |s| <= n then |s| else n
  {
    if |s| <= n then s else s[|s| - n..]
  }

  /** Dropping early loses nothing: the tail of a tail plus more is the tail of everything. */
  lemma {:induction false} LastNAppend(s: string, p: string, n: nat)
    ensures LastN(LastN(s, n) + p, n) == LastN(s + p, n)
  {
  }

  class CappedBuffer {
    const max: nat
    var buf: string
    ghost var written: string

    ghost predicate Valid()
      reads this
    {
      buf == LastN(written, max)
    }

    constructor (max: nat)
      ensures Valid() && this.max == max && written == ""
    {
      this.max := max;
      buf := "";
      written := "";
    }

    method Write(p: string) returns (n: nat)
      requires Valid()
      modifies this
      ensures Valid() && written == old(written) + p && n == |p|
    {
      LastNAppend(written, p, max);
      if |p| >= max {
        buf := "";
        buf := buf + p[|p| - max..];
      } else {
        var overflow := |buf| + |p| - max;
        if overflow > 0 {
          assert overflow <= |buf|;
          buf := buf[overflow..];
        }
        buf := buf + p;
      }
      written := written + p;
      n := |p|;
    }
  }

  // ---- the warning watch ----

  predicate LineStart(s: string, k: nat) {
    k == 0 || (k <= |s| && s[k - 1] == '\n')
  }

  ghost predicate PatternAt(pat: string, s: string, k: nat) {
    LineStart(s, k) && k + |pat| <= |s| && s[k..k + |pat|] == pat
  }

  /** Some line of the stream begins with the pattern. */
  ghost predicate SomeLineBegins(pat: string, s: string) {
    exists k: nat :: PatternAt(pat, s, k)
  }

  /** A pattern the watch can look for: one nonempty piece of a line. */
  predicate OneLine(pat: string) {
    pat != "" && '\n' !in pat
  }

  /** Some line of the stream begins with the max-delete warning. */
  ghost predicate HasWarningLine(s: string) {
    SomeLineBegins(DEL_LIMIT_WARN, s)
  }

  lemma {:induction false} WarningIsOneLine()
    ensures OneLine(DEL_LIMIT_WARN)
  {
  }

  /** The pattern begins a line after the first. */
  ghost predicate LaterLineBegins(pat: string, s: string) {
    exists k: nat :: k > 0 && PatternAt(pat, s, k)
  }

  lemma {:induction false} SliceOfRest(s: string, k: nat, n: nat)
    requires 0 < k && k + n <= |s|
    ensures s[k..k + n] == s[1..][k - 1..k - 1 + n]
  {
    var rest := s[1..];
    var a, b := s[k..k + n], rest[k - 1..k - 1 + n];
    forall i | 0 <= i < n
      ensures a[i] == b[i]
    {
      assert a[i] == s[k + i] && b[i] == rest[k - 1 + i];
    }
    assert a == b;
  }

  lemma {:induction false} LaterStep(pat: string, s: string)
    requires s != "" && OneLine(pat)
    ensures LaterLineBegins(pat, s) <==>
            if s[0] == '\n' then SomeLineBegins(pat, s[1..]) else LaterLineBegins(pat, s[1..])
  {
    var rest := s[1..];
    if k: nat :| k > 0 && PatternAt(pat, s, k) {
      SliceOfRest(s, k, |pat|);
      assert PatternAt(pat, rest, k - 1);
    }
    if k: nat :| PatternAt(pat, rest, k) && (k > 0 || s[0] == '\n') {
      SliceOfRest(s, k + 1, |pat|);
      assert PatternAt(pat, s, k + 1);
    }
  }

  lemma {:induction false} FirstLine(pat: string, s: string)
    requires '\n' !in pat
    ensures pat <= s <==> pat <= Split(s, '\n')[0]
    decreases |s|
  {
    if s != "" && pat != "" {
      FirstLine(pat[1..], s[1..]);
      assert pat == [pat[0]] + pat[1..] && s == [s[0]] + s[1..];
    }
  }

  ghost predicate SomePieceBegins(pat: string, lines: seq<string>) {
    exists i :: 0 <= i < |lines| && pat <= lines[i]
  }

  /** Beginning a line is beginning one of the pieces between newlines. */
  lemma {:induction false} LinesArePieces(pat: string, s: string)
    requires OneLine(pat)
    ensures SomeLineBegins(pat, s) <==> SomePieceBegins(pat, Split(s, '\n'))
    ensures LaterLineBegins(pat, s) <==> SomePieceBegins(pat, Split(s, '\n')[1..])
    decreases |s|
  {
    var lines := Split(s, '\n');
    FirstLine(pat, s);
    if s == "" {
      assert forall k: nat :: !PatternAt(pat, s, k);
    } else {
      LaterStep(pat, s);
      LinesArePieces(pat, s[1..]);
      var rest := Split(s[1..], '\n');
      assert lines[1..] == if s[0] == '\n' then rest else rest[1..];
      assert pat <= s <==> PatternAt(pat, s, 0);
      PieceInTail(pat, lines);
    }
  }

  lemma {:induction false} PieceInTail(pat: string, lines: seq<string>)
    requires lines != []
    ensures SomePieceBegins(pat, lines) <==> pat <= lines[0] || SomePieceBegins(pat, lines[1..])
  {
    if i :| 0 <= i < |lines| && pat <= lines[i] {
      assert i > 0 ==> lines[1..][i - 1] == lines[i];
    }
    if i :| 0 <= i < |lines[1..]| && pat <= lines[1..][i] {
      assert lines[i + 1] == lines[1..][i];
    }
  }

  /** The watch's three fields. */
  datatype Watch = Watch(prefixIndex: nat, unmatched: bool, limited: bool)

  const FRESH := Watch(0, false, false)

  predicate InBounds(pat: string, w: Watch) {
    !w.limited ==> w.prefixIndex < |pat|
  }

  /** One byte through the switch; a watch that has fired ignores the rest. */
  function See(pat: string, w: Watch, b: char): (w': Watch)
    requires InBounds(pat, w)
    ensures InBounds(pat, w')
  {
    if w.limited then w
    else if b == '\n' then w.(prefixIndex := 0, unmatched := false)
    else if w.unmatched then w
    else if b != pat[w.prefixIndex] then w.(unmatched := true)
    else w.(prefixIndex := w.prefixIndex + 1, limited := w.prefixIndex + 1 == |pat|)
  }

  function SeeAll(pat: string, w: Watch, p: string): (w': Watch)
    requires InBounds(pat, w)
    ensures InBounds(pat, w')
  {
    if p == "" then w else See(pat, SeeAll(pat, w, p[..|p| - 1]), p[|p| - 1])
  }

  lemma {:induction false} SeeAllAppend(pat: string, w: Watch, p: string, q: string)
    requires InBounds(pat, w)
    ensures SeeAll(pat, w, p + q) == SeeAll(pat, SeeAll(pat, w, p), q)
    decreases |q|
  {
    if q == "" {
      assert p + q == p;
    } else {
      assert (p + q)[..|p + q| - 1] == p + q[..|q| - 1];
      SeeAllAppend(pat, w, p, q[..|q| - 1]);
    }
  }

  lemma {:induction false} LimitedIsFinal(pat: string, w: Watch, q: string)
    requires w.limited
    ensures SeeAll(pat, w, q) == w
  {
    if q != "" {
      LimitedIsFinal(pat, w, q[..|q| - 1]);
    }
  }

  /** Where the line under way begins. */
  function CurrentLine(s: string): (k: nat)
    ensures k <= |s| && LineStart(s, k)
    ensures '\n' !in s[k..]
  {
    if s == "" || s[|s| - 1] == '\n' then |s|
    else
      var front := s[..|s| - 1];
      var k := CurrentLine(front);
      assert s[k..] == front[k..] + [s[|s| - 1]];
      assert k > 0 ==> s[k - 1] == front[k - 1];
      k
  }

  lemma {:induction false} LineStartWithoutNewline(s: string, k: nat)
    requires k <= |s| && LineStart(s, k) && '\n' !in s[k..]
    ensures k == CurrentLine(s)
  {
  }

  /** What the fields say about the stream seen so far. */
  ghost predicate Tracks(pat: string, w: Watch, s: string) {
    && InBounds(pat, w)
    && (w.limited <==> SomeLineBegins(pat, s))
    && (!w.limited ==>
          var line := s[CurrentLine(s)..];
          if w.unmatched then !(line <= pat) else line == pat[..w.prefixIndex])
  }

  lemma {:induction false} OldMatchStays(pat: string, s: string, b: char)
    requires SomeLineBegins(pat, s)
    ensures SomeLineBegins(pat, s + [b])
  {
    var k: nat :| PatternAt(pat, s, k);
    assert (s + [b])[k..k + |pat|] == s[k..k + |pat|];
    assert PatternAt(pat, s + [b], k);
  }

  lemma {:induction false} MatchEndsHere(pat: string, s: string, b: char)
    requires s[CurrentLine(s)..] + [b] == pat
    ensures SomeLineBegins(pat, s + [b])
  {
    var k := CurrentLine(s);
    assert (s + [b])[k..k + |pat|] == s[k..] + [b];
    assert PatternAt(pat, s + [b], k);
  }

  /** A match that is new with byte b ends at b and begins where the line under way begins. */
  lemma {:induction false} NewMatch(pat: string, s: string, b: char)
    requires OneLine(pat)
    ensures SomeLineBegins(pat, s + [b]) <==> SomeLineBegins(pat, s) || s[CurrentLine(s)..] + [b] == pat
  {
    var t := s + [b];
    if SomeLineBegins(pat, s) {
      OldMatchStays(pat, s, b);
    } else if s[CurrentLine(s)..] + [b] == pat {
      MatchEndsHere(pat, s, b);
    } else if SomeLineBegins(pat, t) {
      var k: nat :| PatternAt(pat, t, k);
      if k + |pat| <= |s| {
        assert t[k..k + |pat|] == s[k..k + |pat|];
        assert PatternAt(pat, s, k);
      } else {
        assert pat == s[k..] + [b];
        LineStartWithoutNewline(s, k);
      }
    }
  }

  lemma {:induction false} LineAfter(s: string, b: char)
    ensures var t := s + [b];
            t[CurrentLine(t)..] == if b == '\n' then "" else s[CurrentLine(s)..] + [b]
  {
    var t := s + [b];
    assert t[|t| - 1] == b && t[..|t| - 1] == s;
  }

  lemma {:induction false} SeeTracks(pat: string, w: Watch, s: string, b: char)
    requires OneLine(pat) && Tracks(pat, w, s)
    ensures Tracks(pat, See(pat, w, b), s + [b])
  {
    NewMatch(pat, s, b);
    if !w.limited {
      var line := s[CurrentLine(s)..];
      LineAfter(s, b);
      LineGrows(pat, line, b);
      assert (line + [b])[|line|] == b;
    }
  }

  /** A line extended by one byte stays a prefix of the pattern iff it was one and the byte fits. */
  lemma {:induction false} LineGrows(pat: string, line: string, b: char)
    ensures line + [b] <= pat <==> line <= pat && |line| < |pat| && pat[|line|] == b
  {
  }

  /** For every stream, the watch fires iff some line starts with the pattern. */
  lemma {:induction false} WatchIsExact(pat: string, s: string)
    requires OneLine(pat)
    ensures Tracks(pat, SeeAll(pat, FRESH, s), s)
  {
    if s == "" {
      assert forall k: nat :: !PatternAt(pat, s, k);
    } else {
      var front := s[..|s| - 1];
      WatchIsExact(pat, front);
      SeeTracks(pat, SeeAll(pat, FRESH, front), front, s[|s| - 1]);
      assert front + [s[|s| - 1]] == s;
    }
  }

  /** The stderr writer: watches every byte, then passes the chunk to the tail buffer. */
  class DelLimitCapture {
    const dst: CappedBuffer
    var prefixIndex: nat
    var unmatched: bool
    var limited: bool

    ghost function State(): Watch
      reads this
    {
      Watch(prefixIndex, unmatched, limited)
    }

    ghost predicate Valid()
      reads this, dst
    {
      dst.Valid() && InBounds(DEL_LIMIT_WARN, State()) && State() == SeeAll(DEL_LIMIT_WARN, FRESH, dst.written)
    }

    constructor (dst: CappedBuffer)
      requires dst.Valid() && dst.written == ""
      ensures Valid() && this.dst == dst && !limited
    {
      this.dst := dst;
      prefixIndex, unmatched, limited := 0, false, false;
    }

    method Write(p: string) returns (n: nat)
      requires Valid()
      modifies this, dst
      ensures Valid() && dst.written == old(dst.written) + p && n == |p|
      ensures limited <==> HasWarningLine(dst.written)
    {
      ghost var w := State();
      ghost var seen := dst.written;
      if !limited {
        for i := 0 to |p|
          invariant dst.Valid() && dst.written == seen
          invariant InBounds(DEL_LIMIT_WARN, State()) && !limited
          invariant State() == SeeAll(DEL_LIMIT_WARN, w, p[..i])
        {
          assert p[..i + 1][..i] == p[..i];
          var b := p[i];
          if b == '\n' {
            prefixIndex := 0;
            unmatched := false;
          } else if unmatched {
          } else if b != DEL_LIMIT_WARN[prefixIndex] {
            unmatched := true;
          } else {
            prefixIndex := prefixIndex + 1;
            if prefixIndex == |DEL_LIMIT_WARN| {
              limited := true;
              assert State() == SeeAll(DEL_LIMIT_WARN, w, p[..i + 1]);
              SeeAllAppend(DEL_LIMIT_WARN, w, p[..i + 1], p[i + 1..]);
              LimitedIsFinal(DEL_LIMIT_WARN, State(), p[i + 1..]);
              assert p[..i + 1] + p[i + 1..] == p;
              break;
            }
          }
        }
        assert p[..|p|] == p;
      } else {
        LimitedIsFinal(DEL_LIMIT_WARN, w, p);
      }
      assert State() == SeeAll(DEL_LIMIT_WARN, w, p);
      SeeAllAppend(DEL_LIMIT_WARN, FRESH, seen, p);
      n := dst.Write(p);
      WarningIsOneLine();
      WatchIsExact(DEL_LIMIT_WARN, dst.written);
    }
  }

  /** The stderr side of one rsync run: for every way of cutting the stream into writes, what is
      kept is the stream's tail and what is reported is whether the warning line occurred in
      the whole stream. */
  method CaptureStderr(chunks: seq<string>, cap: nat) returns (kept: string, limited: bool)
    ensures kept == LastN(Flatten(chunks), cap)
    ensures limited <==> HasWarningLine(Flatten(chunks))
  {
    var errBuf := new CappedBuffer(cap);
    var delLimit := new DelLimitCapture(errBuf);
    WarningIsOneLine();
    WatchIsExact(DEL_LIMIT_WARN, "");
    for i := 0 to |chunks|
      invariant delLimit.Valid() && errBuf.written == Flatten(chunks[..i])
      invariant delLimit.limited <==> HasWarningLine(errBuf.written)
    {
      assert chunks[..i + 1][..i] == chunks[..i];
      var _ := delLimit.Write(chunks[i]);
    }
    assert chunks[..|chunks|] == chunks;
    kept, limited := errBuf.buf, delLimit.limited;
  }
}
