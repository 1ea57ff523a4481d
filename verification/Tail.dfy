/** The stderr tail attached to job records: a cut that never starts inside a character.

    Well-formed text is the byte grammar of section 4 of RFC 3629. */
module StderrTail {
  import opened Streams

  const TRUNC_MARKER := "...(truncated)..."

  // ---- UTF-8 ----

  predicate Within(c: char, lo: int, hi: int) {
    lo <= c as int <= hi
  }

  /** Not a continuation byte. */
  predicate RuneStart(c: char) {
    !Within(c, 0x80, 0xBF)
  }

  predicate Continuations(s: string, from: nat, to: nat)
    requires from <= to <= |s|
  {
    forall i :: from <= i < to ==> !RuneStart(s[i])
  }

  /** Length of the well-formed character at the head of s, 0 if there is none. */
  function CharLen(s: string): (n: nat)
    ensures n <= 4 && n <= |s|
    ensures n > 0 ==> RuneStart(s[0]) && Continuations(s, 1, n)
  {
    if s == "" then 0
    else if Within(s[0], 0x00, 0x7F) then 1
    else if Within(s[0], 0xC2, 0xDF) then
      if |s| >= 2 && Continuations(s, 1, 2) then 2 else 0
    else if Within(s[0], 0xE0, 0xEF) then
      if |s| >= 3 && Continuations(s, 1, 3)
         && (s[0] as int == 0xE0 ==> Within(s[1], 0xA0, 0xBF))
         && (s[0] as int == 0xED ==> Within(s[1], 0x80, 0x9F)) then 3 else 0
    else if Within(s[0], 0xF0, 0xF4) then
      if |s| >= 4 && Continuations(s, 1, 4)
         && (s[0] as int == 0xF0 ==> Within(s[1], 0x90, 0xBF))
         && (s[0] as int == 0xF4 ==> Within(s[1], 0x80, 0x8F)) then 4 else 0
    else 0
  }

  predicate ValidUtf8(s: string) {
    s == "" || (CharLen(s) > 0 && ValidUtf8(s[CharLen(s)..]))
  }

  lemma {:induction false} ValidConcat(a: string, b: string)
    requires ValidUtf8(a) && ValidUtf8(b)
    ensures ValidUtf8(a + b)
    decreases |a|
  {
    if a == "" {
      assert a + b == b;
    } else {
      var n := CharLen(a);
      assert (a + b)[..|a|] == a;
      CharLenExtends(a, b);
      assert (a + b)[n..] == a[n..] + b;
      ValidConcat(a[n..], b);
    }
  }

  lemma {:induction false} CharLenExtends(a: string, b: string)
    requires CharLen(a) > 0
    ensures CharLen(a + b) == CharLen(a)
  {
  }

  predicate Ascii(s: string) {
    forall i :: 0 <= i < |s| ==> Within(s[i], 0x00, 0x7F)
  }

  lemma {:induction false} AsciiIsValid(s: string)
    requires Ascii(s)
    ensures ValidUtf8(s)
  {
    if s != "" {
      AsciiIsValid(s[1..]);
    }
  }

  lemma {:induction false} AsciiThenValid(a: string, b: string)
    requires Ascii(a) && ValidUtf8(b)
    ensures ValidUtf8(a + b)
  {
    AsciiIsValid(a);
    ValidConcat(a, b);
  }

  // ---- the characters of a text ----

  function Concat(ps: seq<string>): string {
    if ps == [] then "" else ps[0] + Concat(ps[1..])
  }

  /** Exactly one well-formed character. */
  predicate OneChar(c: string) { c != "" && CharLen(c) == |c| }

  predicate AllChars(ps: seq<string>) {
    forall i :: 0 <= i < |ps| ==> OneChar(ps[i])
  }

  lemma {:induction false} FirstChar(s: string) returns (c: string, rest: string)
    requires ValidUtf8(s) && s != ""
    ensures s == c + rest && OneChar(c) && ValidUtf8(rest) && |rest| < |s|
  {
    var n := CharLen(s);
    c, rest := s[..n], s[n..];
    CharLenOfPrefix(s, n);
  }

  lemma {:induction false} CharLenOfPrefix(s: string, j: nat)
    requires 0 < CharLen(s) <= j <= |s|
    ensures CharLen(s[..j]) == CharLen(s)
  {
  }

  lemma {:induction false} ConcatCons(c: string, ps: seq<string>)
    ensures Concat([c] + ps) == c + Concat(ps)
    ensures OneChar(c) && AllChars(ps) ==> AllChars([c] + ps)
  {
    assert ([c] + ps)[1..] == ps;
  }

  lemma {:induction false} ValidHasChars(s: string) returns (ps: seq<string>)
    requires ValidUtf8(s)
    ensures AllChars(ps) && Concat(ps) == s
    decreases |s|
  {
    if s == "" {
      ps := [];
    } else {
      var c, rest := FirstChar(s);
      var more := ValidHasChars(rest);
      ConcatCons(c, more);
      ps := [c] + more;
    }
  }

  lemma {:induction false} OneCharIsValid(c: string)
    requires OneChar(c)
    ensures ValidUtf8(c)
  {
    assert c[|c|..] == "";
  }

  lemma {:induction false} CharsAreValid(ps: seq<string>)
    requires AllChars(ps)
    ensures ValidUtf8(Concat(ps))
  {
    if ps != [] {
      OneCharIsValid(ps[0]);
      CharsAreValid(ps[1..]);
      ValidConcat(ps[0], Concat(ps[1..]));
    }
  }

  // ---- the encoding ----

  /** The scalar values: code points without the surrogates. */
  predicate Scalar(cp: int) {
    0 <= cp <= 0x10FFFF && !(0xD800 <= cp <= 0xDFFF)
  }

  function Trail(n: nat): (c: char)
    ensures Within(c, 0x80, 0xBF)
  {
    (0x80 + n % 64) as char
  }

  /** The encoding of one scalar value: the shortest that fits. */
  function Encode(cp: int): string
    requires Scalar(cp)
  {
    if cp < 0x80 then [cp as char]
    else if cp < 0x800 then [(0xC0 + cp / 64) as char, Trail(cp)]
    else if cp < 0x10000 then [(0xE0 + cp / 4096) as char, Trail(cp / 64), Trail(cp)]
    else [(0xF0 + cp / 262144) as char, Trail(cp / 4096), Trail(cp / 64), Trail(cp)]
  }

  lemma {:induction false} ThreeByteLead(cp: int)
    requires 0x800 <= cp < 0x10000 && Scalar(cp)
    ensures 0 <= cp / 4096 <= 15
    ensures cp / 4096 == 0 ==> cp / 64 % 64 >= 0x20
    ensures cp / 4096 == 13 ==> cp / 64 % 64 < 0x20
  {
    assert cp / 4096 == cp / 64 / 64;
  }

  lemma {:induction false} FourByteLead(cp: int)
    requires 0x10000 <= cp <= 0x10FFFF
    ensures 0 <= cp / 262144 <= 4
    ensures cp / 262144 == 0 ==> cp / 4096 % 64 >= 0x10
    ensures cp / 262144 == 4 ==> cp / 4096 % 64 < 0x10
  {
    assert cp / 262144 == cp / 4096 / 64;
  }

  lemma {:induction false} ThreeByteChar(cp: int)
    requires 0x800 <= cp < 0x10000 && Scalar(cp)
    ensures CharLen(Encode(cp)) == 3
  {
    ThreeByteLead(cp);
  }

  lemma {:induction false} FourByteChar(cp: int)
    requires 0x10000 <= cp <= 0x10FFFF
    ensures CharLen(Encode(cp)) == 4
  {
    FourByteLead(cp);
  }

  lemma {:induction false} EncodedIsChar(cp: int)
    requires Scalar(cp)
    ensures CharLen(Encode(cp)) == |Encode(cp)|
  {
    if cp >= 0x10000 {
      FourByteChar(cp);
    } else if cp >= 0x800 {
      ThreeByteChar(cp);
    }
  }

  function Low(c: char): nat
    requires Within(c, 0x80, 0xBF)
  {
    c as int - 0x80
  }

  lemma {:induction false} Places(a: nat, b: nat, c: nat, d: nat)
    requires b < 64 && c < 64 && d < 64
    ensures var n := ((a * 64 + b) * 64 + c) * 64 + d;
            n % 64 == d && n / 64 % 64 == c && n / 4096 % 64 == b && n / 4096 / 64 == a
  {
    var n := ((a * 64 + b) * 64 + c) * 64 + d;
    assert n / 64 == (a * 64 + b) * 64 + c;
    assert n / 64 / 64 == a * 64 + b;
    assert n / 4096 == n / 64 / 64;
  }

  lemma {:induction false} TwoBytes(s: string) returns (cp: int)
    requires CharLen(s) == 2
    ensures Scalar(cp) && s[..2] == Encode(cp)
  {
    cp := (s[0] as int - 0xC0) * 64 + Low(s[1]);
    Places(0, 0, s[0] as int - 0xC0, Low(s[1]));
  }

  lemma {:induction false} ThreeBytes(s: string) returns (cp: int)
    requires CharLen(s) == 3
    ensures Scalar(cp) && s[..3] == Encode(cp)
  {
    var a, b, c := s[0] as int - 0xE0, Low(s[1]), Low(s[2]);
    cp := (a * 64 + b) * 64 + c;
    Places(0, a, b, c);
  }

  lemma {:induction false} FourBytes(s: string) returns (cp: int)
    requires CharLen(s) == 4
    ensures Scalar(cp) && s[..4] == Encode(cp)
  {
    var a, b, c, d := s[0] as int - 0xF0, Low(s[1]), Low(s[2]), Low(s[3]);
    cp := ((a * 64 + b) * 64 + c) * 64 + d;
    Places(a, b, c, d);
    assert cp / 262144 == cp / 4096 / 64;
  }

  /** Every well-formed character is the encoding of a scalar value. */
  lemma {:induction false} CharIsEncoded(s: string) returns (cp: int)
    requires CharLen(s) > 0
    ensures Scalar(cp) && s[..CharLen(s)] == Encode(cp)
  {
    var n := CharLen(s);
    if n == 1 {
      cp := s[0] as int;
    } else if n == 2 {
      cp := TwoBytes(s);
    } else if n == 3 {
      cp := ThreeBytes(s);
    } else {
      cp := FourBytes(s);
    }
  }

  predicate Scalars(cps: seq<int>) {
    forall i :: 0 <= i < |cps| ==> Scalar(cps[i])
  }

  function EncodeAll(cps: seq<int>): string
    requires Scalars(cps)
  {
    if cps == [] then "" else Encode(cps[0]) + EncodeAll(cps[1..])
  }

  lemma {:induction false} EncodeMore(cp: int, cps: seq<int>)
    requires Scalar(cp) && Scalars(cps)
    ensures Scalars([cp] + cps) && EncodeAll([cp] + cps) == Encode(cp) + EncodeAll(cps)
  {
    assert ([cp] + cps)[1..] == cps;
  }

  lemma {:induction false} OneCharIsEncoded(c: string) returns (cp: int)
    requires OneChar(c)
    ensures Scalar(cp) && c == Encode(cp)
  {
    cp := CharIsEncoded(c);
    assert c[..|c|] == c;
  }

  lemma {:induction false} CharsAreEncoded(ps: seq<string>) returns (cps: seq<int>)
    requires AllChars(ps)
    ensures Scalars(cps) && Concat(ps) == EncodeAll(cps)
  {
    cps := [];
    if ps != [] {
      var cp := OneCharIsEncoded(ps[0]);
      var rest := CharsAreEncoded(ps[1..]);
      EncodeMore(cp, rest);
      cps := [cp] + rest;
    }
  }

  /** Well-formed text is exactly the text that encodes a sequence of scalar values. */
  lemma {:induction false} ValidIsEncoded(s: string) returns (cps: seq<int>)
    requires ValidUtf8(s)
    ensures Scalars(cps) && s == EncodeAll(cps)
  {
    var ps := ValidHasChars(s);
    cps := CharsAreEncoded(ps);
  }

  lemma {:induction false} EncodedIsValid(cps: seq<int>)
    requires Scalars(cps)
    ensures ValidUtf8(EncodeAll(cps))
  {
    if cps != [] {
      var a := Encode(cps[0]);
      EncodedIsValid(cps[1..]);
      EncodedIsChar(cps[0]);
      assert a[|a|..] == "";
      ValidConcat(a, EncodeAll(cps[1..]));
    }
  }

  // ---- the cut ----

  /** The first index from i on that starts a character, or the end. */
  function NextStart(s: string, i: nat): (j: nat)
    requires i <= |s|
    ensures i <= j <= |s|
    ensures Continuations(s, i, j)
    ensures j < |s| ==> RuneStart(s[j])
    decreases |s| - i
  {
    if i < |s| && !RuneStart(s[i]) then NextStart(s, i + 1) else i
  }

  lemma {:induction false} NextStartUnique(s: string, i: nat, j: nat)
    requires i <= j <= |s| && Continuations(s, i, j) && (j < |s| ==> RuneStart(s[j]))
    ensures j == NextStart(s, i)
    decreases j - i
  {
  }

  /** The part of an overlong text that is kept. */
  function Cut(s: string, n: nat): string
    requires |s| > n
  {
    s[NextStart(s, |s| - n)..]
  }

  function TailOf(s: string, n: nat): string {
    if |s| <= n then s else TRUNC_MARKER + Cut(s, n)
  }

  method Tail(s: string, n: nat) returns (r: string)
    ensures r == TailOf(s, n)
  {
    if |s| <= n {
      return s;
    }
    var i := |s| - n;
    while i < |s| && !RuneStart(s[i])
      invariant |s| - n <= i <= |s|
      invariant Continuations(s, |s| - n, i)
    {
      i := i + 1;
    }
    NextStartUnique(s, |s| - n, i);
    return TRUNC_MARKER + s[i..];
  }

  /** Arbitrary bytes: what fits is logged as it is. A cut keeps a suffix of at most n bytes that
      does not begin with a continuation byte, and drops nothing but continuation bytes beyond
      the cut. */
  lemma {:induction false} TailShape(s: string, n: nat) returns (kept: string)
    ensures TailOf(s, n) == if |s| <= n then s else TRUNC_MARKER + kept
    ensures |kept| <= n && |kept| <= |s| && kept == s[|s| - |kept|..]
    ensures |s| > n && kept != "" ==> RuneStart(kept[0])
    ensures |s| > n ==> Continuations(s, |s| - n, |s| - |kept|)
  {
    kept := if |s| <= n then s else s[NextStart(s, |s| - n)..];
  }

  /** What the cut can see of a character: a start and up to three continuation bytes. */
  predicate Shaped(c: string) {
    1 <= |c| <= 4 && RuneStart(c[0]) && Continuations(c, 1, |c|)
  }

  predicate AllShaped(ps: seq<string>) {
    forall i :: 0 <= i < |ps| ==> Shaped(ps[i])
  }

  lemma {:induction false} CharsAreShaped(ps: seq<string>)
    requires AllChars(ps)
    ensures AllShaped(ps)
  {
  }

  lemma {:induction false} StartsAtZero(ps: seq<string>)
    requires AllShaped(ps)
    ensures NextStart(Concat(ps), 0) == 0
  {
  }

  lemma {:induction false} InsideFirst(c: string, tail: string, i: nat)
    requires Shaped(c) && 0 < i < |c| && NextStart(tail, 0) == 0
    ensures NextStart(c + tail, i) == |c|
  {
    var s := c + tail;
    assert forall k :: 0 <= k < |c| ==> s[k] == c[k];
    assert tail != "" ==> s[|c|] == tail[0];
    NextStartUnique(s, i, |c|);
  }

  lemma {:induction false} ConcatSplit(ps: seq<string>, m: nat)
    requires m <= |ps|
    ensures Concat(ps) == Concat(ps[..m]) + Concat(ps[m..])
    decreases m
  {
    if m == 0 {
      assert ps[..0] == [] && ps[0..] == ps;
    } else {
      ConcatSplit(ps[1..], m - 1);
      assert ps[..m][1..] == ps[1..][..m - 1] && ps[1..][m - 1..] == ps[m..];
    }
  }

  /** From any position the next start is a boundary between characters, at most three bytes on. */
  lemma {:induction false} CutIsBetween(ps: seq<string>, i: nat) returns (m: nat)
    requires AllShaped(ps) && i <= |Concat(ps)|
    ensures m <= |ps| && NextStart(Concat(ps), i) == |Concat(ps[..m])| && NextStart(Concat(ps), i) <= i + 3
    decreases |ps|
  {
    if i == 0 {
      m := 0;
      StartsAtZero(ps);
    } else if i < |ps[0]| {
      m := 1;
      StartsAtZero(ps[1..]);
      InsideFirst(ps[0], Concat(ps[1..]), i);
      assert ps[..1][1..] == [] && ps[..1][0] == ps[0];
    } else {
      var len, tail := |ps[0]|, Concat(ps[1..]);
      assert Concat(ps)[len..] == tail;
      var k := CutIsBetween(ps[1..], i - len);
      ShiftedStart(Concat(ps), len, i, NextStart(tail, i - len));
      m := k + 1;
      assert ps[..m][1..] == ps[1..][..k];
    }
  }

  lemma {:induction false} ShiftedStart(s: string, len: nat, i: nat, j: nat)
    requires len <= i <= |s| && j == NextStart(s[len..], i - len)
    ensures NextStart(s, i) == len + j
  {
  }

  lemma {:induction false} MarkerIsAscii()
    ensures Ascii(TRUNC_MARKER)
  {
  }

  /** Both sides of a cut between characters are well-formed. */
  lemma {:induction false} CutIsValid(s: string, ps: seq<string>, m: nat)
    requires AllChars(ps) && s == Concat(ps) && m <= |ps|
    ensures |Concat(ps[..m])| <= |s|
    ensures ValidUtf8(s[..|Concat(ps[..m])|]) && ValidUtf8(s[|Concat(ps[..m])|..])
  {
    var a, b := Concat(ps[..m]), Concat(ps[m..]);
    ConcatSplit(ps, m);
    CharsAreValid(ps[..m]);
    CharsAreValid(ps[m..]);
    assert s[..|a|] == a && s[|a|..] == b;
  }

  lemma {:induction false} CutOfUtf8(s: string, i: nat) returns (j: nat)
    requires ValidUtf8(s) && i <= |s|
    ensures j == NextStart(s, i) <= i + 3
    ensures ValidUtf8(s[..j]) && ValidUtf8(s[j..])
  {
    var ps := ValidHasChars(s);
    CharsAreShaped(ps);
    var m := CutIsBetween(ps, i);
    CutIsValid(s, ps, m);
    j := NextStart(s, i);
  }

  lemma {:induction false} MarkedIsValid(kept: string)
    requires ValidUtf8(kept)
    ensures ValidUtf8(TRUNC_MARKER + kept)
  {
    MarkerIsAscii();
    AsciiThenValid(TRUNC_MARKER, kept);
  }

  /** Well-formed text: the cut drops at most three bytes beyond n, both sides of it are
      well-formed, and so is the logged string. */
  lemma {:induction false} TailOfUtf8(s: string, n: nat) returns (kept: string)
    requires ValidUtf8(s) && |s| > n
    ensures TailOf(s, n) == TRUNC_MARKER + kept
    ensures n - 3 <= |kept| <= n && kept == s[|s| - |kept|..]
    ensures ValidUtf8(kept) && ValidUtf8(s[..|s| - |kept|]) && ValidUtf8(TailOf(s, n))
  {
    var j := CutOfUtf8(s, |s| - n);
    kept := s[j..];
    assert |s| - |kept| == j;
    MarkedIsValid(kept);
  }

  // ---- the cap and the cut together ----

  /** The cap is invisible to the logged tail exactly when it is larger than the tail, or
      nothing was evicted. */
  lemma {:induction false} CapInvisible(s: string, m: nat, n: nat)
    ensures TailOf(LastN(s, m), n) == TailOf(s, n) <==> n < m || |s| <= m
  {
    if |s| > m && n < m {
      CutInTail(s, m, n);
    } else if |s| > m {
      CapVisible(s, m, n);
    }
  }

  lemma {:induction false} CutInTail(s: string, m: nat, n: nat)
    requires n < m < |s|
    ensures Cut(s[|s| - m..], n) == Cut(s, n)
  {
    var d, b := |s| - m, s[|s| - m..];
    var k := NextStart(b, m - n);
    ShiftedStart(s, d, |s| - n, k);
    assert b[k..] == s[d + k..];
  }

  /** With a cap no larger than the tail, an evicting stream is logged without its marker: were
      the buffer to begin with the marker's text, the cut would have stopped there. */
  lemma {:induction false} CapVisible(s: string, m: nat, n: nat)
    requires |s| > m && n >= m
    ensures LastN(s, m) != TailOf(s, n)
  {
    if |s| > n && 0 < m && s[|s| - m] == TRUNC_MARKER[0] {
      assert RuneStart(s[|s| - m]);
      assert NextStart(s, |s| - n) <= |s| - m;
      assert |TailOf(s, n)| > |LastN(s, m)|;
    } else if |s| > n && 0 < m {
      assert TailOf(s, n)[0] == TRUNC_MARKER[0];
      assert LastN(s, m)[0] == s[|s| - m];
    }
  }

  /** The values in the source: a 1 MB cap and a 2048-byte tail. */
  const LOG_TAIL: nat := 2048

  lemma {:induction false} LoggedTailIgnoresCap(s: string)
    ensures TailOf(LastN(s, OUTPUT_CAP), LOG_TAIL) == TailOf(s, LOG_TAIL)
  {
  }
}
