/** Decimal text: what %d prints, and the reader of rsync's comma-grouped statistics. */
module Numbers {
  import opened Options

  const INT64_LIMIT: nat := 0x8000_0000_0000_0000

  predicate IsDigit(c: char) { '0' <= c <= '9' }

  predicate AllDigits(s: string) {
    forall i :: 0 <= i < |s| ==> IsDigit(s[i])
  }

  function DigitChar(d: nat): (c: char)
    requires d < 10
    ensures IsDigit(c) && DigitValue(c) == d
  {
    '0' + d as char
  }

  function DigitValue(c: char): (d: nat)
    requires IsDigit(c)
    ensures d < 10
  {
    (c - '0') as nat
  }

  function Decimal(n: nat): (s: string)
    ensures s != "" && AllDigits(s)
  {
    if n < 10 then [DigitChar(n)] else Decimal(n / 10) + [DigitChar(n % 10)]
  }

  function Value(s: string): nat
    requires AllDigits(s)
  {
    if s == "" then 0 else 10 * Value(s[..|s| - 1]) + DigitValue(s[|s| - 1])
  }

  lemma {:induction false} ValueOfDecimal(n: nat)
    ensures Value(Decimal(n)) == n
  {
    var s := Decimal(n);
    if n < 10 {
      assert s[..0] == "";
    } else {
      ValueOfDecimal(n / 10);
      assert s[..|s| - 1] == Decimal(n / 10);
    }
  }

  /** Base ten, most significant digit first. */
  lemma {:induction false} DecimalMeans(n: nat)
    ensures n < 10 ==> Decimal(n) == ["0123456789"[n]]
    ensures n >= 10 ==> Decimal(n) == Decimal(n / 10) + Decimal(n % 10)
  {
  }

  /** A plain decimal number, as an option value. */
  function ReadNat(s: string): Option<nat> {
    if s != "" && AllDigits(s) then Some(Value(s)) else None
  }

  lemma {:induction false} ReadDecimal(n: nat)
    ensures ReadNat(Decimal(n)) == Some(n)
  {
    ValueOfDecimal(n);
  }

  // ---- parseNum ----

  /** strconv.ParseInt in base 10 at 64 bits. */
  function ParseInt(s: string): Option<int> {
    if s == "" then None
    else if s[0] == '-' then
      match ReadNat(s[1..])
      case Some(n) => var m: int := n; if m <= INT64_LIMIT then Some(-m) else None
      case None => None
    else
      match ReadNat(if s[0] == '+' then s[1..] else s)
      case Some(n) => if n < INT64_LIMIT then Option<int>.Some(n) else None
      case None => None
  }

  function StripCommas(s: string): string {
    if s == "" then "" else StripCommas(s[..|s| - 1]) + (if s[|s| - 1] == ',' then "" else [s[|s| - 1]])
  }

  function ParseNum(s: string): int {
    match ParseInt(StripCommas(s))
    case Some(n) => n
    case None => 0
  }

  lemma {:induction false} StripAppend(a: string, b: string)
    ensures StripCommas(a + b) == StripCommas(a) + StripCommas(b)
    decreases |b|
  {
    if b == "" {
      assert a + b == a;
    } else {
      assert (a + b)[..|a + b| - 1] == a + b[..|b| - 1];
      StripAppend(a, b[..|b| - 1]);
    }
  }

  lemma {:induction false} StripDigits(s: string)
    requires AllDigits(s)
    ensures StripCommas(s) == s
  {
    if s != "" {
      StripDigits(s[..|s| - 1]);
    }
  }

  predicate DigitOrComma(c: char) { IsDigit(c) || c == ',' }

  lemma {:induction false} StripLeavesDigits(s: string)
    requires forall i :: 0 <= i < |s| ==> DigitOrComma(s[i])
    ensures AllDigits(StripCommas(s))
  {
    if s != "" {
      StripLeavesDigits(s[..|s| - 1]);
    }
  }

  lemma {:induction false} StripOnlyCommas(s: string)
    requires forall i :: 0 <= i < |s| ==> s[i] == ','
    ensures StripCommas(s) == "" && ParseNum(s) == 0
  {
    if s != "" {
      StripOnlyCommas(s[..|s| - 1]);
    }
  }

  lemma {:induction false} ParseIntOfDigits(d: string)
    requires AllDigits(d)
    ensures ParseInt(d) == if d == "" || Value(d) >= INT64_LIMIT then None else Option<int>.Some(Value(d))
  {
  }

  /** On everything the statistics patterns can capture, [0-9,]+ : the value of the digits if
      there are any and it fits in 63 bits, else 0; where the commas stand does not matter. */
  lemma {:induction false} ParseNumOfCapture(s: string)
    requires forall i :: 0 <= i < |s| ==> s[i] in "0123456789,"
    ensures AllDigits(StripCommas(s))
    ensures var v := Value(StripCommas(s)); ParseNum(s) == if v < INT64_LIMIT then v else 0
  {
    StripLeavesDigits(s);
    ParseIntOfDigits(StripCommas(s));
  }

  /** Three digits with leading zeros. */
  function Pad3(n: nat): string
    requires n < 1000
  {
    [DigitChar(n / 100), DigitChar(n / 10 % 10), DigitChar(n % 10)]
  }

  /** Thousands separators. */
  function Grouped(n: nat): string {
    if n < 1000 then Decimal(n) else Grouped(n / 1000) + "," + Pad3(n % 1000)
  }

  lemma {:induction false} DecimalByThousands(n: nat)
    requires n >= 1000
    ensures Decimal(n) == Decimal(n / 1000) + Pad3(n % 1000)
  {
    var a, b := n / 10, n / 100;
    assert a / 10 == b && b / 10 == n / 1000;
    assert n % 10 == n % 1000 % 10;
    assert a % 10 == n % 1000 / 10 % 10;
    assert b % 10 == n % 1000 / 100;
    assert Decimal(n) == Decimal(a) + [DigitChar(n % 10)];
    assert Decimal(a) == Decimal(b) + [DigitChar(a % 10)];
    assert Decimal(b) == Decimal(n / 1000) + [DigitChar(b % 10)];
  }

  lemma {:induction false} StripGrouped(n: nat)
    ensures StripCommas(Grouped(n)) == Decimal(n)
  {
    if n < 1000 {
      StripDigits(Decimal(n));
    } else {
      StripGrouped(n / 1000);
      StripAppend(Grouped(n / 1000) + ",", Pad3(n % 1000));
      StripAppend(Grouped(n / 1000), ",");
      assert StripCommas(",") == "" by {
        assert ","[..0] == "";
      }
      StripDigits(Pad3(n % 1000));
      DecimalByThousands(n);
    }
  }

  /** Printing with separators and reading back is the identity up to 2^63 - 1, and 0 above. */
  lemma {:induction false} ParseNumOfGrouped(n: nat)
    ensures ParseNum(Grouped(n)) == if n < INT64_LIMIT then n else 0
  {
    StripGrouped(n);
    ValueOfDecimal(n);
    ParseIntOfDigits(Decimal(n));
  }
}
