/** The -e string: one argument holding the ssh command, which rsync splits into words itself. */
module RemoteShell {
  import opened Options

  datatype HostKeys = AcceptNew | Strict

  const KNOWN_HOSTS := "/config/known_hosts"

  predicate IsQuote(c: char) { c == '\'' || c == '"' }

  /** A word that splitting gives back as it is. */
  predicate Plain(w: string) {
    w != "" && forall i :: 0 <= i < |w| ==> w[i] != ' ' && !IsQuote(w[i])
  }

  // ---- rsync's splitter ----

  datatype Quote = Unquoted | Within(q: char)

  /** `word` is the word under way, if any. A space ends it, a quote opens a run in which spaces
      count, and a run that is never closed is an error. */
  function SplitFrom(s: string, quote: Quote, word: Option<string>): Option<seq<string>> {
    if s == "" then
      if quote.Within? then None
      else match word case None => Some([]) case Some(w) => Some([w])
    else
      var c, rest := s[0], s[1..];
      var w := if word.Some? then word.value else "";
      match quote
      case Within(q) =>
        if c == q then SplitFrom(rest, Unquoted, Some(w)) else SplitFrom(rest, quote, Some(w + [c]))
      case Unquoted =>
        if c == ' ' then
          match SplitFrom(rest, Unquoted, None)
          case None => None
          case Some(ws) => Some((match word case None => [] case Some(w) => [w]) + ws)
        else if IsQuote(c) then SplitFrom(rest, Within(c), Some(w))
        else SplitFrom(rest, Unquoted, Some(w + [c]))
  }

  function SplitWords(s: string): Option<seq<string>> {
    SplitFrom(s, Unquoted, None)
  }

  // ---- sshCommand ----

  function SshWords(key: string, mode: HostKeys): seq<string> {
    match mode
    case Strict =>
      ["ssh", "-i", key, "-o", "StrictHostKeyChecking=yes", "-o", "UserKnownHostsFile=" + KNOWN_HOSTS,
       "-o", "BatchMode=yes", "-o", "ConnectTimeout=10"]
    case AcceptNew =>
      ["ssh", "-i", key, "-o", "StrictHostKeyChecking=accept-new", "-o", "BatchMode=yes", "-o", "ConnectTimeout=10"]
  }

  function JoinWords(ws: seq<string>): string {
    if ws == [] then "" else if |ws| == 1 then ws[0] else ws[0] + (" " + JoinWords(ws[1..]))
  }

  /** The format text of the source, broken at its options. */
  function SshCommand(key: string, mode: HostKeys): string {
    match mode
    case Strict =>
      "ssh -i " + key + " -o StrictHostKeyChecking=yes" + (" -o UserKnownHostsFile=" + KNOWN_HOSTS) +
      " -o BatchMode=yes" + " -o ConnectTimeout=10"
    case AcceptNew =>
      "ssh -i " + key + " -o StrictHostKeyChecking=accept-new" + " -o BatchMode=yes" + " -o ConnectTimeout=10"
  }

  // ---- the text is the words, one space apart ----

  function OptionWords(opts: seq<string>): seq<string> {
    if opts == [] then [] else ["-o", opts[0]] + OptionWords(opts[1..])
  }

  function OptionText(opts: seq<string>): string {
    if opts == [] then "" else " -o " + opts[0] + OptionText(opts[1..])
  }

  lemma {:induction false} JoinCons(w: string, ws: seq<string>)
    requires ws != []
    ensures JoinWords([w] + ws) == w + (" " + JoinWords(ws))
  {
  }

  lemma {:induction false} JoinOptions(word: string, opts: seq<string>)
    ensures JoinWords([word] + OptionWords(opts)) == word + OptionText(opts)
    decreases |opts|
  {
    if opts == [] {
      assert [word] + OptionWords(opts) == [word];
    } else {
      var o, rest := opts[0], opts[1..];
      var tail := [o] + OptionWords(rest);
      assert [word] + OptionWords(opts) == [word] + (["-o"] + tail);
      JoinOptions(o, rest);
      JoinCons("-o", tail);
      JoinCons(word, ["-o"] + tail);
      Spacing(word, "-o", " -o ", o, OptionText(rest));
    }
  }

  lemma {:induction false} Spacing(word: string, flag: string, spaced: string, o: string, rest: string)
    requires spaced == " " + (flag + " ")
    ensures word + (" " + (flag + (" " + (o + rest)))) == word + (spaced + o + rest)
  {
    assert " " + (flag + (" " + (o + rest))) == (" " + (flag + " ")) + (o + rest);
    assert spaced + (o + rest) == spaced + o + rest;
  }

  function SshOptions(mode: HostKeys): seq<string> {
    match mode
    case Strict =>
      ["StrictHostKeyChecking=yes", "UserKnownHostsFile=" + KNOWN_HOSTS, "BatchMode=yes", "ConnectTimeout=10"]
    case AcceptNew => ["StrictHostKeyChecking=accept-new", "BatchMode=yes", "ConnectTimeout=10"]
  }

  lemma {:induction false} ThreeOptions(a: string, b: string, c: string)
    ensures OptionWords([a, b, c]) == ["-o", a, "-o", b, "-o", c]
    ensures OptionText([a, b, c]) == " -o " + a + (" -o " + b + (" -o " + c))
  {
    assert [a, b, c][1..] == [b, c] && [b, c][1..] == [c] && [c][1..] == [];
    assert OptionWords([c]) == ["-o", c] && OptionText([c]) == " -o " + c;
    assert OptionWords([b, c]) == ["-o", b, "-o", c];
  }

  lemma {:induction false} FourOptions(a: string, b: string, c: string, d: string)
    ensures OptionWords([a, b, c, d]) == ["-o", a, "-o", b, "-o", c, "-o", d]
    ensures OptionText([a, b, c, d]) == " -o " + a + (" -o " + b + (" -o " + c + (" -o " + d)))
  {
    assert [a, b, c, d][1..] == [b, c, d];
    ThreeOptions(b, c, d);
  }

  lemma {:induction false} StrictText()
    ensures " -o " + "StrictHostKeyChecking=yes" == " -o StrictHostKeyChecking=yes"
  {
  }

  lemma {:induction false} AcceptNewText()
    ensures " -o " + "StrictHostKeyChecking=accept-new" == " -o StrictHostKeyChecking=accept-new"
  {
  }

  lemma {:induction false} OptionTexts(file: string)
    ensures " -o " + ("UserKnownHostsFile=" + file) == " -o UserKnownHostsFile=" + file
    ensures " -o " + "BatchMode=yes" == " -o BatchMode=yes"
    ensures " -o " + "ConnectTimeout=10" == " -o ConnectTimeout=10"
  {
    assert " -o " + "UserKnownHostsFile=" == " -o UserKnownHostsFile=";
    assert " -o " + ("UserKnownHostsFile=" + file) == (" -o " + "UserKnownHostsFile=") + file;
  }

  /** The words and the text as they are written out, by option. */
  lemma {:induction false} WrittenOut(key: string, mode: HostKeys)
    ensures SshWords(key, mode) == ["ssh"] + (["-i"] + ([key] + OptionWords(SshOptions(mode))))
    ensures SshCommand(key, mode) == "ssh -i " + key + OptionText(SshOptions(mode))
  {
    StrictText();
    AcceptNewText();
    OptionTexts(KNOWN_HOSTS);
    match mode
    case Strict =>
      var file := "UserKnownHostsFile=" + KNOWN_HOSTS;
      FourOptions("StrictHostKeyChecking=yes", file, "BatchMode=yes", "ConnectTimeout=10");
      Regroup("ssh -i " + key, " -o StrictHostKeyChecking=yes", " -o " + file, " -o BatchMode=yes",
              " -o ConnectTimeout=10");
    case AcceptNew =>
      ThreeOptions("StrictHostKeyChecking=accept-new", "BatchMode=yes", "ConnectTimeout=10");
      Regroup("ssh -i " + key, " -o StrictHostKeyChecking=accept-new", " -o BatchMode=yes",
              " -o ConnectTimeout=10", "");
  }

  lemma {:induction false} Regroup(h: string, a: string, b: string, c: string, d: string)
    ensures h + (a + (b + c)) == h + a + b + c
    ensures h + (a + (b + (c + d))) == h + a + b + c + d
  {
  }

  lemma {:induction false} HeadText(key: string, rest: string)
    ensures "ssh" + (" " + ("-i" + (" " + (key + rest)))) == "ssh -i " + key + rest
  {
    Spacing("ssh", "-i", " -i ", key, rest);
    assert "ssh" + " -i " == "ssh -i ";
    assert "ssh" + (" -i " + key + rest) == ("ssh" + " -i ") + key + rest;
  }

  /** The printed text is the intended words with one space between neighbours. */
  lemma {:induction false} CommandIsWords(key: string, mode: HostKeys)
    ensures SshCommand(key, mode) == JoinWords(SshWords(key, mode))
  {
    var opts := SshOptions(mode);
    var tail := [key] + OptionWords(opts);
    WrittenOut(key, mode);
    JoinOptions(key, opts);
    JoinCons("-i", tail);
    JoinCons("ssh", ["-i"] + tail);
    HeadText(key, OptionText(opts));
  }

  // ---- splitting undoes joining ----

  lemma {:induction false} TakeWord(w: string, tail: string, head: string)
    requires forall i :: 0 <= i < |w| ==> w[i] != ' ' && !IsQuote(w[i])
    ensures SplitFrom(w + tail, Unquoted, Some(head)) == SplitFrom(tail, Unquoted, Some(head + w))
    decreases |w|
  {
    if w == "" {
      assert w + tail == tail && head + w == head;
    } else {
      assert (w + tail)[1..] == w[1..] + tail;
      TakeWord(w[1..], tail, head + [w[0]]);
      assert head + [w[0]] + w[1..] == head + w;
    }
  }

  lemma {:induction false} FirstWord(w: string, tail: string)
    requires Plain(w)
    ensures SplitFrom(w + tail, Unquoted, None) == SplitFrom(tail, Unquoted, Some(w))
  {
    assert (w + tail)[1..] == w[1..] + tail;
    TakeWord(w[1..], tail, [w[0]]);
    assert [w[0]] + w[1..] == w;
    assert "" + [w[0]] == [w[0]];
  }

  lemma {:induction false} AfterWord(w: string, tail: string)
    ensures SplitFrom("", Unquoted, Some(w)) == Some([w])
    ensures SplitFrom(" " + tail, Unquoted, Some(w)) ==
            match SplitFrom(tail, Unquoted, None) case None => None case Some(ws) => Some([w] + ws)
  {
  }

  lemma {:induction false} SplitJoin(ws: seq<string>)
    requires forall i :: 0 <= i < |ws| ==> Plain(ws[i])
    ensures SplitWords(JoinWords(ws)) == Some(ws)
  {
    if |ws| == 1 {
      assert ws[0] + "" == ws[0];
      FirstWord(ws[0], "");
      AfterWord(ws[0], "");
      assert ws == [ws[0]];
    } else if ws != [] {
      var tail := JoinWords(ws[1..]);
      FirstWord(ws[0], " " + tail);
      AfterWord(ws[0], tail);
      SplitJoin(ws[1..]);
      assert ws == [ws[0]] + ws[1..];
    }
  }

  // ---- what splitting can keep ----

  function Letters(ws: seq<string>): nat {
    if ws == [] then 0 else |ws[0]| + Letters(ws[1..])
  }

  lemma {:induction false} JoinLength(ws: seq<string>)
    requires ws != []
    ensures |JoinWords(ws)| == Letters(ws) + |ws| - 1
  {
    if |ws| > 1 {
      JoinLength(ws[1..]);
    } else {
      assert ws[1..] == [];
    }
  }

  function Spaces(s: string): nat {
    if s == "" then 0 else (if s[0] == ' ' then 1 else 0) + Spaces(s[1..])
  }

  predicate HasQuote(s: string) { exists i :: 0 <= i < |s| && IsQuote(s[i]) }

  function Held(word: Option<string>): nat {
    if word.Some? then |word.value| else 0
  }

  lemma {:induction false} HasQuoteStep(s: string)
    requires s != ""
    ensures HasQuote(s) <==> IsQuote(s[0]) || HasQuote(s[1..])
  {
  }

  lemma {:induction false} LettersCons(w: string, ws: seq<string>)
    ensures Letters([w] + ws) == |w| + Letters(ws)
  {
  }

  /** Splitting never gains text, and a quote is always lost. */
  lemma {:induction false} SplitLoses(s: string, quote: Quote, word: Option<string>)
    requires SplitFrom(s, quote, word).Some?
    ensures var ws := SplitFrom(s, quote, word).value;
            && Letters(ws) + |ws| <= |s| + 1 + Held(word)
            && (quote.Within? || HasQuote(s) ==> Letters(ws) + |ws| <= |s| + Held(word))
    decreases |s|
  {
    if s == "" {
      if word.Some? {
        LettersCons(word.value, []);
        assert [word.value] + [] == [word.value];
      }
    } else {
      var c, rest := s[0], s[1..];
      var w := if word.Some? then word.value else "";
      HasQuoteStep(s);
      if quote.Within? {
        if c == quote.q {
          SplitLoses(rest, Unquoted, Some(w));
        } else {
          SplitLoses(rest, quote, Some(w + [c]));
        }
      } else if c == ' ' {
        SplitLoses(rest, Unquoted, None);
        var ws := SplitFrom(rest, Unquoted, None).value;
        LettersCons(w, ws);
        assert [] + ws == ws;
      } else if IsQuote(c) {
        SplitLoses(rest, Within(c), Some(w));
      } else {
        SplitLoses(rest, Unquoted, Some(w + [c]));
      }
    }
  }

  /** Without quotes exactly the spaces are lost, and no word is empty. */
  lemma {:induction false} SplitKeepsLetters(s: string, word: Option<string>)
    requires !HasQuote(s) && (word.Some? ==> word.value != "")
    ensures SplitFrom(s, Unquoted, word).Some?
    ensures var ws := SplitFrom(s, Unquoted, word).value;
            Letters(ws) + Spaces(s) == |s| + Held(word) && "" !in ws
    decreases |s|
  {
    if s == "" {
      if word.Some? {
        LettersCons(word.value, []);
        assert [word.value] + [] == [word.value];
      }
    } else {
      var c, rest := s[0], s[1..];
      var w := if word.Some? then word.value else "";
      HasQuoteStep(s);
      if c == ' ' {
        SplitKeepsLetters(rest, None);
        var ws := SplitFrom(rest, Unquoted, None).value;
        LettersCons(w, ws);
        assert [] + ws == ws;
      } else {
        SplitKeepsLetters(rest, Some(w + [c]));
      }
    }
  }

  lemma {:induction false} SpacesAppend(a: string, b: string)
    ensures Spaces(a + b) == Spaces(a) + Spaces(b)
  {
    if a == "" {
      assert a + b == b;
    } else {
      assert (a + b)[1..] == a[1..] + b;
      SpacesAppend(a[1..], b);
    }
  }

  /** Joining adds one space between words; spaces and quotes inside a word stay. */
  lemma {:induction false} JoinKeeps(ws: seq<string>, k: nat)
    requires k < |ws|
    ensures Spaces(JoinWords(ws)) >= |ws| - 1 + Spaces(ws[k])
    ensures HasQuote(ws[k]) ==> HasQuote(JoinWords(ws))
    decreases |ws|
  {
    if |ws| > 1 {
      var tail := JoinWords(ws[1..]);
      SpacesAppend(ws[0], " " + tail);
      SpacesAppend(" ", tail);
      assert Spaces(" ") == 1 by {
        assert " "[1..] == "";
      }
      JoinKeeps(ws[1..], if k == 0 then 0 else k - 1);
      if HasQuote(ws[k]) {
        QuoteInJoin(ws[0], tail, ws[k], k == 0);
      }
    }
  }

  lemma {:induction false} QuoteInJoin(w: string, tail: string, piece: string, first: bool)
    requires HasQuote(piece) && (if first then piece == w else HasQuote(tail))
    ensures HasQuote(w + (" " + tail))
  {
    var s := w + (" " + tail);
    if first {
      var i :| 0 <= i < |w| && IsQuote(w[i]);
      assert s[i] == w[i];
    } else {
      var i :| 0 <= i < |tail| && IsQuote(tail[i]);
      assert s[|w| + 1 + i] == tail[i];
    }
  }

  lemma {:induction false} NoSpacesMeans(s: string)
    ensures Spaces(s) == 0 <==> ' ' !in s
  {
    if s != "" {
      NoSpacesMeans(s[1..]);
      assert s == [s[0]] + s[1..];
    }
  }

  /** A list of words survives joining and splitting only if every word is plain. */
  lemma {:induction false} SplitJoinOnlyPlain(ws: seq<string>, k: nat)
    requires k < |ws| && SplitWords(JoinWords(ws)) == Some(ws)
    ensures Plain(ws[k])
  {
    var s := JoinWords(ws);
    JoinLength(ws);
    JoinKeeps(ws, k);
    SplitLoses(s, Unquoted, None);
    assert !HasQuote(s);
    SplitKeepsLetters(s, None);
    NoSpacesMeans(ws[k]);
    assert ws[k] in ws;
  }

  lemma {:induction false} ShortWordsArePlain()
    ensures Plain("ssh") && Plain("-i") && Plain("-o") && Plain("BatchMode=yes") && Plain("ConnectTimeout=10")
  {
  }

  lemma {:induction false} LongWordsArePlain()
    ensures Plain("StrictHostKeyChecking=yes") && Plain("StrictHostKeyChecking=accept-new")
    ensures Plain("UserKnownHostsFile=" + KNOWN_HOSTS)
  {
  }

  /** The refusals on ssh_key are exactly what the -e string needs: rsync runs ssh with the words
      that were meant iff the key path is nonempty and has no space and no quote. */
  lemma {:induction false} SshCommandExact(key: string, mode: HostKeys)
    ensures SplitWords(SshCommand(key, mode)) == Some(SshWords(key, mode)) <==> Plain(key)
    ensures Plain(key) <==> key != "" && forall i :: 0 <= i < |key| ==> key[i] !in " '\""
  {
    var ws := SshWords(key, mode);
    CommandIsWords(key, mode);
    assert ws[2] == key;
    if Plain(key) {
      ShortWordsArePlain();
      LongWordsArePlain();
      SplitJoin(ws);
    }
    if SplitWords(SshCommand(key, mode)) == Some(ws) {
      SplitJoinOnlyPlain(ws, 2);
    }
  }

  /** The key and the mode, read back from the words. */
  function ReadSsh(command: string): Option<(string, HostKeys)> {
    match SplitWords(command)
    case None => None
    case Some(ws) =>
      if |ws| == 9 && ws == SshWords(ws[2], AcceptNew) then Some((ws[2], AcceptNew))
      else if |ws| == 11 && ws == SshWords(ws[2], Strict) then Some((ws[2], Strict))
      else None
  }

  lemma {:induction false} ReadSshCommand(key: string, mode: HostKeys)
    requires Plain(key)
    ensures ReadSsh(SshCommand(key, mode)) == Some((key, mode))
  {
    SshCommandExact(key, mode);
    assert |SshWords(key, mode)| == if mode == Strict then 11 else 9;
    assert SshWords(key, mode)[2] == key;
  }
}
