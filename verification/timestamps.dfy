/**
 * `datetime.strptime(text, '%Y-%m-%dT%H:%M:%SZ')` as a strict fixed-width
 * parser, the `strftime` of the same format as its inverse, and the order
 * in which Python compares two naive datetimes.
 */
module Timestamps {
  import opened Wrappers
  import opened Json

  datatype Timestamp = Timestamp(year: int, month: int, day: int, hour: int, minute: int, second: int)

  predicate IsLeapYear(y: int) {
    y % 4 == 0 && (y % 100 != 0 || y % 400 == 0)
  }

  function DaysInMonth(y: int, m: int): int
    requires 1 <= m <= 12
  {
    if m == 2 then (if IsLeapYear(y) then 29 else 28)
    else if m == 4 || m == 6 || m == 9 || m == 11 then 30
    else 31
  }

  /** The range `datetime` itself accepts: years 1..9999, real calendar days, no leap seconds. */
  predicate Valid(t: Timestamp) {
    && 1 <= t.year <= 9999
    && 1 <= t.month <= 12
    && 1 <= t.day <= DaysInMonth(t.year, t.month)
    && 0 <= t.hour <= 23
    && 0 <= t.minute <= 59
    && 0 <= t.second <= 59
  }

  /** `a < b` on datetimes: lexicographic on (year, month, day, hour, minute, second). */
  predicate Before(a: Timestamp, b: Timestamp) {
    if a.year != b.year then a.year < b.year
    else if a.month != b.month then a.month < b.month
    else if a.day != b.day then a.day < b.day
    else if a.hour != b.hour then a.hour < b.hour
    else if a.minute != b.minute then a.minute < b.minute
    else a.second < b.second
  }

  /** `Before` is a strict total order, so a store's newest row is well defined. */
  lemma BeforeIsStrictTotalOrder(a: Timestamp, b: Timestamp, c: Timestamp)
    ensures !Before(a, a)
    ensures Before(a, b) ==> !Before(b, a)
    ensures Before(a, b) && Before(b, c) ==> Before(a, c)
    ensures a != b ==> Before(a, b) || Before(b, a)
  {
  }

  /** "Not later than" chains: `b <= a` and `c <= b` give `c <= a`. */
  lemma NotBeforeTransitive(a: Timestamp, b: Timestamp, c: Timestamp)
    requires !Before(a, b) && !Before(b, c)
    ensures !Before(a, c)
  {
    BeforeIsStrictTotalOrder(a, b, c);
    BeforeIsStrictTotalOrder(b, c, a);
    BeforeIsStrictTotalOrder(c, a, b);
  }

  predicate IsDigit(c: char) {
    '0' <= c <= '9'
  }

  predicate AllDigits(s: string) {
    forall i :: 0 <= i < |s| ==> IsDigit(s[i])
  }

  function Pow10(n: nat): nat {
    if n == 0 then 1 else 10 * Pow10(n - 1)
  }

  /** The number a run of decimal digits spells. */
  function DigitsValue(s: string): nat
    requires AllDigits(s)
  {
    if s == [] then 0
    else DigitsValue(s[..|s| - 1]) * 10 + (s[|s| - 1] as int - '0' as int)
  }

  /** `n` written with exactly `width` digits, zero-padded (the `%Y`/`%m`/... of strftime). */
  function Digits(n: nat, width: nat): string {
    if width == 0 then []
    else Digits(n / 10, width - 1) + [('0' as int + n % 10) as char]
  }

  /** Writing a number that fits the width and reading it back gives the number. */
  lemma {:induction false} DigitsThenValue(n: nat, width: nat)
    requires n < Pow10(width)
    ensures |Digits(n, width)| == width
    ensures AllDigits(Digits(n, width))
    ensures DigitsValue(Digits(n, width)) == n
  {
    if width > 0 {
      DigitsThenValue(n / 10, width - 1);
      var d := Digits(n, width);
      assert d[..|d| - 1] == Digits(n / 10, width - 1);
    }
  }

  /** Reading a digit run and writing it back at the same width gives the run. */
  lemma {:induction false} ValueThenDigits(s: string)
    requires AllDigits(s)
    ensures DigitsValue(s) < Pow10(|s|)
    ensures Digits(DigitsValue(s), |s|) == s
  {
    if s != [] {
      var init := s[..|s| - 1];
      ValueThenDigits(init);
      var n := DigitsValue(s);
      assert n / 10 == DigitsValue(init);
      assert n % 10 == s[|s| - 1] as int - '0' as int;
      assert s == init + [s[|s| - 1]];
    }
  }

  /** Splits a `width`-digit field off the front of `s`. */
  function TakeDigits(s: string, width: nat): Option<(nat, string)> {
    if |s| >= width && AllDigits(s[..width]) then Some((DigitsValue(s[..width]), s[width..]))
    else None
  }

  /** Splits the literal character `c` off the front of `s`. */
  function TakeChar(s: string, c: char): Option<string> {
    if |s| >= 1 && s[0] == c then Some(s[1..]) else None
  }

  lemma TakeDigitsOfDigits(n: nat, width: nat, rest: string)
    requires n < Pow10(width)
    ensures TakeDigits(Digits(n, width) + rest, width) == Some((n, rest))
  {
    DigitsThenValue(n, width);
    var s := Digits(n, width) + rest;
    assert s[..width] == Digits(n, width);
    assert s[width..] == rest;
  }

  lemma TakeDigitsSplits(s: string, width: nat)
    requires TakeDigits(s, width).Some?
    ensures TakeDigits(s, width).value.0 < Pow10(width)
    ensures s == Digits(TakeDigits(s, width).value.0, width) + TakeDigits(s, width).value.1
  {
    ValueThenDigits(s[..width]);
    assert s == s[..width] + s[width..];
  }

  lemma TakeCharSplits(s: string, c: char)
    ensures TakeChar(s, c).Some? <==> |s| >= 1 && s[0] == c
    ensures TakeChar(s, c).Some? ==> s == [c] + TakeChar(s, c).value
    ensures TakeChar([c] + s, c) == Some(s)
  {
    if |s| >= 1 && s[0] == c {
      assert s == [c] + s[1..];
    }
    assert ([c] + s)[1..] == s;
  }

  /**
   * The fields `%Y-%m-%dT%H:%M:%SZ` reads, or `None` when the text does not
   * have that exact shape (including text left over after the `Z`).
   */
  function Fields(s: string): Option<Timestamp> {
    var year :- TakeDigits(s, 4);
    var r1 :- TakeChar(year.1, '-');
    var month :- TakeDigits(r1, 2);
    var r2 :- TakeChar(month.1, '-');
    var day :- TakeDigits(r2, 2);
    var r3 :- TakeChar(day.1, 'T');
    var hour :- TakeDigits(r3, 2);
    var r4 :- TakeChar(hour.1, ':');
    var minute :- TakeDigits(r4, 2);
    var r5 :- TakeChar(minute.1, ':');
    var second :- TakeDigits(r5, 2);
    var r6 :- TakeChar(second.1, 'Z');
    if r6 == [] then Some(Timestamp(year.0, month.0, day.0, hour.0, minute.0, second.0)) else None
  }

  /** `strptime(s, '%Y-%m-%dT%H:%M:%SZ')`; `ValueError` when the text or the date is wrong. */
  function Parse(s: string): (r: Result<Timestamp, Error>)
    ensures r.Ok? ==> Valid(r.value)
    ensures r.Err? ==> r.error == ValueError(s)
  {
    match Fields(s)
    case Some(t) => if Valid(t) then Ok(t) else Err(ValueError(s))
    case None => Err(ValueError(s))
  }

  /** `t.strftime('%Y-%m-%dT%H:%M:%SZ')`. */
  function Format(t: Timestamp): string
    requires Valid(t)
  {
    Digits(t.year, 4) + ("-" + (Digits(t.month, 2) + ("-" + (Digits(t.day, 2) + ("T"
      + (Digits(t.hour, 2) + (":" + (Digits(t.minute, 2) + (":" + (Digits(t.second, 2) + "Z"))))))))))
  }

  /** Every datetime the format can express parses back from its own text. */
  lemma FormatThenParse(t: Timestamp)
    requires Valid(t)
    ensures Parse(Format(t)) == Ok(t)
  {
    var r6 := "Z";
    var s6 := Digits(t.second, 2) + r6;
    var r5 := ":" + s6;
    var s5 := Digits(t.minute, 2) + r5;
    var r4 := ":" + s5;
    var s4 := Digits(t.hour, 2) + r4;
    var r3 := "T" + s4;
    var s3 := Digits(t.day, 2) + r3;
    var r2 := "-" + s3;
    var s2 := Digits(t.month, 2) + r2;
    var r1 := "-" + s2;
    var s1 := Digits(t.year, 4) + r1;
    assert s1 == Format(t);
    TakeDigitsOfDigits(t.year, 4, r1);
    TakeCharSplits(s2, '-');
    TakeDigitsOfDigits(t.month, 2, r2);
    TakeCharSplits(s3, '-');
    TakeDigitsOfDigits(t.day, 2, r3);
    TakeCharSplits(s4, 'T');
    TakeDigitsOfDigits(t.hour, 2, r4);
    TakeCharSplits(s5, ':');
    TakeDigitsOfDigits(t.minute, 2, r5);
    TakeCharSplits(s6, ':');
    TakeDigitsOfDigits(t.second, 2, r6);
    TakeCharSplits([], 'Z');
    assert Fields(s1) == Some(t);
  }

  /** The parser accepts only the canonical text of the datetime it returns. */
  lemma ParseThenFormat(s: string)
    requires Parse(s).Ok?
    ensures Format(Parse(s).value) == s
  {
    var year := TakeDigits(s, 4).value;
    TakeDigitsSplits(s, 4);
    var r1 := TakeChar(year.1, '-').value;
    TakeCharSplits(year.1, '-');
    var month := TakeDigits(r1, 2).value;
    TakeDigitsSplits(r1, 2);
    var r2 := TakeChar(month.1, '-').value;
    TakeCharSplits(month.1, '-');
    var day := TakeDigits(r2, 2).value;
    TakeDigitsSplits(r2, 2);
    var r3 := TakeChar(day.1, 'T').value;
    TakeCharSplits(day.1, 'T');
    var hour := TakeDigits(r3, 2).value;
    TakeDigitsSplits(r3, 2);
    var r4 := TakeChar(hour.1, ':').value;
    TakeCharSplits(hour.1, ':');
    var minute := TakeDigits(r4, 2).value;
    TakeDigitsSplits(r4, 2);
    var r5 := TakeChar(minute.1, ':').value;
    TakeCharSplits(minute.1, ':');
    var second := TakeDigits(r5, 2).value;
    TakeDigitsSplits(r5, 2);
    var r6 := TakeChar(second.1, 'Z').value;
    TakeCharSplits(second.1, 'Z');
    var t := Timestamp(year.0, month.0, day.0, hour.0, minute.0, second.0);
    assert Fields(s) == Some(t);
    assert Parse(s).value == t;
    assert second.1 == "Z";
    assert minute.1 == ":" + (Digits(second.0, 2) + "Z");
    assert hour.1 == ":" + (Digits(minute.0, 2) + minute.1);
    assert day.1 == "T" + (Digits(hour.0, 2) + hour.1);
    assert month.1 == "-" + (Digits(day.0, 2) + day.1);
    assert year.1 == "-" + (Digits(month.0, 2) + month.1);
  }

  /**
   * `datetime_from_github_time(v)` of main.py, also the `created_at`
   * conversion of the event parser: `strptime` refuses a non-string.
   */
  function FromGithubTime(v: Value): (r: Result<Timestamp, Error>)
    ensures r.Ok? <==> v.Str? && Parse(v.s).Ok?
    ensures r.Ok? ==> Valid(r.value)
    ensures r.Ok? ==> Format(r.value) == v.s
    ensures v.Str? && r.Err? ==> r.error == ValueError(v.s)
    ensures !v.Str? ==> r == Err(TypeError("strptime"))
  {
    match v
    case Str(s) =>
      var t :- Parse(s);
      ParseThenFormat(s);
      Ok(t)
    case _ => Err(TypeError("strptime"))
  }
}
