/**
 * `formatScore`: a survival time in milliseconds shown as minutes, seconds
 * and milliseconds separated by colons, and a reader for that text.
 */
module Score {
  import opened Digits
  import opened Options

  const MS_PER_SECOND: nat := 1000
  const MS_PER_MINUTE: nat := 60 * MS_PER_SECOND

  /** `String(n)` for a non-negative integer `n`. */
  function Decimal(n: nat): string {
    ToDigits(n, 10)
  }

  /** The number of decimal digits of `n`: one, two or three below 10, 100 and 1000. */
  lemma DecimalLength(n: nat)
    ensures n < 10 ==> |Decimal(n)| == 1
    ensures 10 <= n < 100 ==> |Decimal(n)| == 2
    ensures 10 <= n ==> |Decimal(n)| >= 2
    ensures n < 1000 ==> |Decimal(n)| <= 3
  {
    if n >= 10 {
      var q := n / 10;
      assert Decimal(n) == Decimal(q) + [DigitChar(n % 10)];
      if n < 1000 {
        assert q < 100;
        if q >= 10 {
          assert Decimal(q) == Decimal(q / 10) + [DigitChar(q % 10)];
          assert |Decimal(q / 10)| == 1;
        }
      }
    }
  }

  /** `(n < 10) ? '0' + n : n`: the minutes and seconds fields. */
  function PadTwo(n: nat): (s: string)
    ensures AllDigits(s, 10)
    ensures Value(s, 10) == n
    ensures 2 <= |s|
    ensures n < 100 ==> |s| == 2
    ensures 10 <= n ==> s[0] != '0'
  {
    DecimalLength(n);
    ValueOfToDigits(n, 10);
    ValueLeadingZero(Decimal(n), 10);
    if n < 10 then "0" + Decimal(n) else Decimal(n)
  }

  /**
   * `n.toLocaleString('en-US', {minimumIntegerDigits: 3, useGrouping: false})`:
   * the decimal digits of `n`, left-padded with zeros to three characters.
   */
  function PadThree(n: nat): (s: string)
    ensures AllDigits(s, 10)
    ensures Value(s, 10) == n
    ensures 3 <= |s|
    ensures n < 1000 ==> |s| == 3
  {
    var d := Decimal(n);
    DecimalLength(n);
    ValueOfToDigits(n, 10);
    if |d| < 3 then
      ValueLeadingZeros(3 - |d|, d, 10);
      Zeros(3 - |d|) + d
    else
      d
  }

  /**
   * `formatScore(score)`: "MM:SS:mmm". The minutes field has at least two
   * digits, the seconds field exactly two and the milliseconds field exactly
   * three; the two colons are the only non-digit characters.
   */
  function FormatScore(score: nat): (r: string)
    ensures |r| >= 9
    ensures r[|r| - 7] == ':' && r[|r| - 4] == ':'
    ensures forall i :: 0 <= i < |r| && i != |r| - 7 && i != |r| - 4 ==> IsDigit(r[i], 10)
  {
    // For a non-negative score, JavaScript's Math.floor of the quotient and
    // its remainder operator agree with Dafny's `/` and `%`.
    var minutes := score / MS_PER_MINUTE;
    var seconds := (score % MS_PER_MINUTE) / MS_PER_SECOND;
    var milliseconds := score % MS_PER_SECOND;
    PadTwo(minutes) + ":" + PadTwo(seconds) + ":" + PadThree(milliseconds)
  }

  /** The minutes, seconds and milliseconds fields of a score text, by position. */
  function MinutesField(t: string): string
    requires |t| >= 9
  {
    t[..|t| - 7]
  }

  function SecondsField(t: string): string
    requires |t| >= 9
  {
    t[|t| - 6..|t| - 4]
  }

  function MillisecondsField(t: string): string
    requires |t| >= 9
  {
    t[|t| - 3..]
  }

  /**
   * Reads a score text back: `None` unless it is digits, a colon, two digits
   * below 60, a colon and three digits, with at least two minute digits.
   */
  function ParseScore(t: string): Option<nat> {
    if |t| < 9 || t[|t| - 7] != ':' || t[|t| - 4] != ':' then None
    else
      var m, s, ms := MinutesField(t), SecondsField(t), MillisecondsField(t);
      if AllDigits(m, 10) && AllDigits(s, 10) && AllDigits(ms, 10) && Value(s, 10) < 60 then
        Some(Value(m, 10) * MS_PER_MINUTE + Value(s, 10) * MS_PER_SECOND + Value(ms, 10))
      else
        None
  }

  /**
   * The three fields of `FormatScore(score)` decompose the score exactly:
   * minutes * 60000 + seconds * 1000 + milliseconds, with seconds below 60
   * and milliseconds below 1000.
   */
  lemma FormatScoreFields(score: nat)
    ensures var r := FormatScore(score);
      && var minutes := Value(MinutesField(r), 10);
      && var seconds := Value(SecondsField(r), 10);
      && var milliseconds := Value(MillisecondsField(r), 10);
      && minutes * MS_PER_MINUTE + seconds * MS_PER_SECOND + milliseconds == score
      && seconds < 60
      && milliseconds < 1000
      && AllDigits(MinutesField(r), 10)
      && AllDigits(SecondsField(r), 10)
      && AllDigits(MillisecondsField(r), 10)
  {
    var minutes := score / MS_PER_MINUTE;
    var seconds := (score % MS_PER_MINUTE) / MS_PER_SECOND;
    var milliseconds := score % MS_PER_SECOND;
    var a, b, c := PadTwo(minutes), PadTwo(seconds), PadThree(milliseconds);
    var r := FormatScore(score);
    assert r == a + ":" + b + ":" + c;
    assert |b| == 2 && |c| == 3;
    assert MinutesField(r) == a;
    assert SecondsField(r) == b;
    assert MillisecondsField(r) == c;
    ModOfMod(score);
  }

  /**
   * The minutes field is the padded minute count: two digits below ten
   * minutes and, from ten minutes on, `String(minutes)` with no padding zero
   * in front.
   */
  lemma FormatScoreMinutes(score: nat)
    ensures var m := MinutesField(FormatScore(score));
      && m == PadTwo(score / MS_PER_MINUTE)
      && (score < 10 * MS_PER_MINUTE ==> |m| == 2)
      && (score >= 10 * MS_PER_MINUTE ==> m[0] != '0')
  {
    var a, b, c := PadTwo(score / MS_PER_MINUTE), PadTwo((score % MS_PER_MINUTE) / MS_PER_SECOND), PadThree(score % MS_PER_SECOND);
    var r := FormatScore(score);
    assert r == a + ":" + b + ":" + c;
    assert |b| == 2 && |c| == 3;
    assert MinutesField(r) == a;
    TenMinutes(score);
  }

  lemma TenMinutes(score: nat)
    ensures score < 10 * MS_PER_MINUTE <==> score / MS_PER_MINUTE < 10
  {
    var q, r := score / 60000, score % 60000;
    assert score == 60000 * q + r && 0 <= r < 60000;
  }

  /** A whole number of minutes is a whole number of seconds. */
  lemma ModOfMod(n: nat)
    ensures (n % MS_PER_MINUTE) % MS_PER_SECOND == n % MS_PER_SECOND
  {
    var q, r := n / 60000, n % 60000;
    assert n == 60000 * q + r;
    var s, m := r / 1000, r % 1000;
    assert r == 1000 * s + m;
    assert n == 1000 * (60 * q + s) + m;
    ThousandsUnique(n, 60 * q + s, m);
  }

  lemma ThousandsUnique(n: nat, k: int, m: int)
    requires n == 1000 * k + m && 0 <= m < 1000
    ensures n % 1000 == m
  {}

  /** Reading a formatted score gives the score back. */
  lemma ParseFormatScore(score: nat)
    ensures ParseScore(FormatScore(score)) == Some(score)
  {
    FormatScoreFields(score);
    var r := FormatScore(score);
    var m, sec, ms := MinutesField(r), SecondsField(r), MillisecondsField(r);
    assert |r| >= 9 && r[|r| - 7] == ':' && r[|r| - 4] == ':';
    assert AllDigits(m, 10) && AllDigits(sec, 10) && AllDigits(ms, 10) && Value(sec, 10) < 60;
    var total := Value(m, 10) * MS_PER_MINUTE + Value(sec, 10) * MS_PER_SECOND + Value(ms, 10);
    assert total == score;
    assert ParseScore(r) == Some(total);
  }

  /** Different scores are never shown as the same text. */
  lemma FormatScoreInjective(a: nat, b: nat)
    requires FormatScore(a) == FormatScore(b)
    ensures a == b
  {
    ParseFormatScore(a);
    ParseFormatScore(b);
  }

  /** Worked example: 65432 ms is one minute, five seconds and 432 ms. */
  lemma FormatScoreExampleMinute()
    ensures FormatScore(65432) == "01:05:432"
  {
    assert Decimal(43) == Decimal(4) + "3";
    assert Decimal(432) == Decimal(43) + "2";
    assert PadTwo(1) == "01" && PadTwo(5) == "05" && PadThree(432) == "432";
    assert 65432 / MS_PER_MINUTE == 1 && (65432 % MS_PER_MINUTE) / MS_PER_SECOND == 5;
    assert 65432 % MS_PER_SECOND == 432;
  }

  /** Worked example: 999 ms has zero minutes and zero seconds. */
  lemma FormatScoreExampleUnderSecond()
    ensures FormatScore(999) == "00:00:999"
  {
    assert Decimal(99) == Decimal(9) + "9";
    assert Decimal(999) == Decimal(99) + "9";
    assert PadTwo(0) == "00" && PadThree(999) == "999";
    assert 999 / MS_PER_MINUTE == 0 && (999 % MS_PER_MINUTE) / MS_PER_SECOND == 0;
    assert 999 % MS_PER_SECOND == 999;
  }

  /** Worked example: one hour is shown as sixty minutes. */
  lemma FormatScoreExampleHour()
    ensures FormatScore(3600000) == "60:00:000"
  {
    assert 3600000 / MS_PER_MINUTE == 60;
    assert (3600000 % MS_PER_MINUTE) / MS_PER_SECOND == 0;
    assert 3600000 % MS_PER_SECOND == 0;
    assert Decimal(60) == Decimal(6) + "0";
    assert PadTwo(60) == "60";
    assert PadTwo(0) == "00";
    assert PadThree(0) == "000";
  }
}
