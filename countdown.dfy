/**
 * One refresh of the countdown widget (`update` inside `renderCountdown`):
 * the remaining time `end - now` in milliseconds becomes either the
 * language-dependent "live" message or a days/hours/minutes/seconds reading,
 * and then the text written into the output slot.
 */
module Countdown {
  const MsPerSecond := 1000
  const MsPerMinute := 60000
  const MsPerHour := 3600000
  const MsPerDay := 86400000

  /** The two literal translations of the message shown once the target is reached. */
  const LiveEs: string := "En curso / Nos vemos ahí"
  const LiveEn: string := "Now live / See you there"

  /** What one refresh shows. */
  datatype Reading = Live(message: string) | Remaining(days: nat, hours: nat, minutes: nat, seconds: nat)

  // ---------------------------------------------------------------------------
  // Integer division facts (Dafny's `/` and `%` are Euclidean, which for a
  // positive divisor is floor division).

  /** Multiplying by a positive number preserves strict order. */
  lemma MulCancel(d: int, x: int, y: int)
    requires d > 0 && d * x < d * y
    ensures x < y
  {
  }

  /** Division is determined by any quotient/remainder pair with the remainder in range. */
  lemma DivModUnique(a: int, d: int, q: int, r: int)
    requires d > 0 && 0 <= r < d && a == d * q + r
    ensures a / d == q && a % d == r
  {
    var q', r' := a / d, a % d;
    assert d * q' + r' == d * q + r;
    assert d * q' < d * (q + 1) by { assert d * (q + 1) == d * q + d; }
    assert d * q < d * (q' + 1) by { assert d * (q' + 1) == d * q' + d; }
    MulCancel(d, q', q + 1);
    MulCancel(d, q, q' + 1);
  }

  /** A remainder scaled by `b`, plus a remainder below `b`, stays below `b * c`. */
  lemma ScaledRemainder(b: int, c: int, r1: int, r2: int)
    requires b > 0 && 0 <= r1 < b && 0 <= r2 < c
    ensures 0 <= b * r2 + r1 < b * c
  {
    assert b * (c - 1 - r2) >= 0;
    assert b * (c - 1 - r2) == b * c - b - b * r2;
  }

  /** Dividing by `b * c` is dividing by `b` and then by `c`. */
  lemma DivDiv(a: int, b: int, c: int)
    requires b > 0 && c > 0
    ensures a / (b * c) == (a / b) / c
  {
    var q1, r1 := a / b, a % b;
    var q2, r2 := q1 / c, q1 % c;
    assert b * q1 == (b * c) * q2 + b * r2 by {
      assert q1 == c * q2 + r2;
    }
    ScaledRemainder(b, c, r1, r2);
    DivModUnique(a, b * c, q2, b * r2 + r1);
  }

  // ---------------------------------------------------------------------------
  // The JavaScript expressions of the source, over exact reals.

  /** `Math.trunc` on a number. */
  function Trunc(x: real): int {
    if x >= 0.0 then x.Floor else -((-x).Floor)
  }

  /** JavaScript `x % y` on numbers: the remainder takes the sign of the dividend. */
  function JsRem(x: real, y: real): real
    requires y != 0.0
  {
    x - y * (Trunc(x / y) as real)
  }

  /** `Math.floor(diff / k)`, as the days are computed. */
  function JsQuotient(diff: int, k: int): int
    requires k > 0
  {
    (diff as real / k as real).Floor
  }

  /** `Math.floor((diff / k) % n)`, as the hours, minutes and seconds are computed. */
  function JsUnit(diff: int, k: int, n: int): int
    requires k > 0 && n > 0
  {
    JsRem(diff as real / k as real, n as real).Floor
  }

  /** The real quotient of two integers is the integer quotient plus a fraction in [0, 1). */
  lemma RealQuotient(a: int, k: int)
    requires k > 0
    ensures a as real / k as real == (a / k) as real + (a % k) as real / k as real
    ensures 0.0 <= (a % k) as real / k as real < 1.0
  {
    var q, r := a / k, a % k;
    assert a as real == (k as real) * (q as real) + r as real;
  }

  /** `Math.floor(diff / k)` is Dafny's `diff / k`, for every integer `diff`. */
  lemma JsQuotientIsDiv(diff: int, k: int)
    requires k > 0
    ensures JsQuotient(diff, k) == diff / k
  {
    RealQuotient(diff, k);
    var x := diff as real / k as real;
    var f := x.Floor;
    var q := diff / k;
    assert q as real <= x < q as real + 1.0;
    assert f as real <= x < f as real + 1.0;
  }

  /** For a positive difference, `Math.floor((diff / k) % n)` is Dafny's `(diff / k) % n`. */
  lemma {:induction false} JsUnitIsMod(diff: int, k: int, n: int)
    requires diff > 0 && k > 0 && n > 0
    ensures JsUnit(diff, k, n) == (diff / k) % n
  {
    var q := diff / k;
    var frac := (diff % k) as real / k as real;
    RealQuotient(diff, k);
    var x := diff as real / k as real;
    assert x == q as real + frac;
    // trunc(x / n) is the integer diff / (k * n), which is q / n
    assert x / n as real == diff as real / (k * n) as real;
    JsQuotientIsDiv(diff, k * n);
    DivDiv(diff, k, n);
    assert x / n as real >= 0.0;
    var a := q / n;
    assert Trunc(x / n as real) == a;
    // so the remainder is (q % n) + frac
    assert q == n * a + q % n;
    assert JsRem(x, n as real) == (q % n) as real + frac;
    var u := JsRem(x, n as real).Floor;
    var m := q % n;
    assert u as real <= m as real + frac < u as real + 1.0;
  }

  // ---------------------------------------------------------------------------
  // The integer model of one refresh.

  /** The elapsed-seconds identity behind the decomposition. */
  lemma Recompose(diff: int)
    requires diff > 0
    ensures (diff / MsPerDay) * 86400 + ((diff / MsPerHour) % 24) * 3600
            + ((diff / MsPerMinute) % 60) * 60 + (diff / MsPerSecond) % 60 == diff / MsPerSecond
  {
    var s := diff / 1000;
    DivDiv(diff, 1000, 60);
    DivDiv(diff, 60000, 60);
    DivDiv(diff, 3600000, 24);
    var m := s / 60;
    var h := m / 60;
    var d := h / 24;
    assert diff / MsPerMinute == m;
    assert diff / MsPerHour == h;
    assert diff / MsPerDay == d;
    assert s == 60 * m + s % 60;
    assert m == 60 * h + m % 60;
    assert h == 24 * d + h % 24;
    calc {
      s;
      60 * (60 * h + m % 60) + s % 60;
      3600 * h + 60 * (m % 60) + s % 60;
      3600 * (24 * d + h % 24) + 60 * (m % 60) + s % 60;
      d * 86400 + (h % 24) * 3600 + (m % 60) * 60 + s % 60;
    }
  }

  /**
   * The reading for a positive remaining time `diff` (lines 59-62): hours,
   * minutes and seconds are in range and together with the days make up the
   * whole seconds of `diff`.
   */
  function Decompose(diff: int): (r: Reading)
    requires diff > 0
    ensures r.Remaining?
    ensures r.hours < 24 && r.minutes < 60 && r.seconds < 60
    ensures r.days * 86400 + r.hours * 3600 + r.minutes * 60 + r.seconds == diff / 1000
  {
    Recompose(diff);
    Remaining(diff / MsPerDay, (diff / MsPerHour) % 24, (diff / MsPerMinute) % 60, (diff / MsPerSecond) % 60)
  }

  /** The integer decomposition is exactly what the source's floating-point expressions compute. */
  lemma DecomposeMatchesSource(diff: int)
    requires diff > 0
    ensures Decompose(diff) == Remaining(JsQuotient(diff, MsPerDay), JsUnit(diff, MsPerHour, 24),
                                         JsUnit(diff, MsPerMinute, 60), JsUnit(diff, MsPerSecond, 60))
  {
    JsQuotientIsDiv(diff, MsPerDay);
    JsUnitIsMod(diff, MsPerHour, 24);
    JsUnitIsMod(diff, MsPerMinute, 60);
    JsUnitIsMod(diff, MsPerSecond, 60);
  }

  /**
   * The bounds and the seconds identity determine the reading: any
   * days/hours/minutes/seconds that satisfy them are the ones shown.
   */
  lemma DecomposeUnique(diff: int, d: nat, h: nat, m: nat, s: nat)
    requires diff > 0 && h < 24 && m < 60 && s < 60
    requires d * 86400 + h * 3600 + m * 60 + s == diff / 1000
    ensures Decompose(diff) == Remaining(d, h, m, s)
  {
    var total := diff / 1000;
    DivDiv(diff, 1000, 60);
    DivDiv(diff, 60000, 60);
    DivDiv(diff, 3600000, 24);
    assert total == 60 * (d * 1440 + h * 60 + m) + s;
    DivModUnique(total, 60, d * 1440 + h * 60 + m, s);
    var mins := total / 60;
    assert mins == 60 * (d * 24 + h) + m;
    DivModUnique(mins, 60, d * 24 + h, m);
    var hrs := mins / 60;
    assert hrs == 24 * d + h;
    DivModUnique(hrs, 24, d, h);
  }

  /**
   * One refresh at time `now` towards `end`: the live message (Spanish
   * exactly when `lang` is "es") once `end - now <= 0`, else the
   * decomposition of the remaining milliseconds.
   */
  function Tick(lang: string, now: int, end: int): (r: Reading)
    ensures r.Live? <==> end - now <= 0
    ensures r.Live? ==> r.message == (if lang == "es" then LiveEs else LiveEn)
    ensures r.Remaining? ==> r.hours < 24 && r.minutes < 60 && r.seconds < 60
    ensures r.Remaining? ==> r.days * 86400 + r.hours * 3600 + r.minutes * 60 + r.seconds == (end - now) / 1000
  {
    var diff := end - now;
    if diff <= 0 then
      Live(if lang == "es" then LiveEs else LiveEn)
    else
      Decompose(diff)
  }

  // ---------------------------------------------------------------------------
  // The text written into the slot.

  /** The character of a decimal digit. */
  function DigitChar(n: nat): char
    requires n < 10
  {
    ('0' as int + n) as char
  }

  /** The decimal value of a digit character. */
  function DigitValue(c: char): nat
    requires '0' <= c <= '9'
  {
    (c as int - '0' as int) as nat
  }

  /** True when every character of `s` is a decimal digit. */
  predicate AllDigits(s: string) {
    forall i :: 0 <= i < |s| ==> '0' <= s[i] <= '9'
  }

  /** The number a string of decimal digits denotes. */
  function DecimalValue(s: string): nat
    requires AllDigits(s)
  {
    if s == [] then 0 else DecimalValue(s[..|s| - 1]) * 10 + DigitValue(s[|s| - 1])
  }

  /** How a template literal `${n}` prints a non-negative integer: decimal digits, no leading zero. */
  function Decimal(n: nat): (s: string)
    ensures |s| >= 1 && AllDigits(s)
    ensures s[0] == '0' ==> n == 0
  {
    if n < 10 then [DigitChar(n)] else Decimal(n / 10) + [DigitChar(n % 10)]
  }

  /** Printing a number and reading the digits back gives the number. */
  lemma {:induction false} DecimalRoundTrip(n: nat)
    ensures DecimalValue(Decimal(n)) == n
  {
    var s := Decimal(n);
    if n >= 10 {
      DecimalRoundTrip(n / 10);
      assert s[..|s| - 1] == Decimal(n / 10);
    }
  }

  /** The text of a reading, as line 63 formats it. */
  function Show(r: Reading): string {
    match r
    case Live(msg) => msg
    case Remaining(d, h, m, s) => Decimal(d) + "d " + Decimal(h) + "h " + Decimal(m) + "m " + Decimal(s) + "s"
  }

  /**
   * The text one refresh writes into the countdown slot: the language's live
   * message at or after the target, else the days, hours, minutes and seconds
   * left, in decimal, with their `d`/`h`/`m`/`s` suffixes.
   */
  function CountdownText(lang: string, now: int, end: int): (r: string)
    ensures end - now <= 0 ==> r == (if lang == "es" then LiveEs else LiveEn)
    ensures end - now > 0 ==>
      var x := Decompose(end - now);
      r == Decimal(x.days) + "d " + Decimal(x.hours) + "h " + Decimal(x.minutes) + "m " + Decimal(x.seconds) + "s"
  {
    Show(Tick(lang, now, end))
  }

  /** At or after the target the slot shows the live message, Spanish exactly for "es". */
  lemma CountdownTextLive(lang: string, now: int, end: int)
    requires end <= now
    ensures CountdownText(lang, now, end) == (if lang == "es" then LiveEs else LiveEn)
  {
  }

  /** 90061 seconds ahead is one day, one hour, one minute and one second. */
  lemma CountdownTextExample(lang: string, now: int)
    ensures CountdownText(lang, now, now + 90061000) == "1d 1h 1m 1s"
  {
    DecomposeUnique(90061000, 1, 1, 1, 1);
  }

  /** Two days ahead, to the millisecond, reads "2d 0h 0m 0s". */
  lemma CountdownTextTwoDays(lang: string, now: int)
    ensures CountdownText(lang, now, now + 2 * MsPerDay) == "2d 0h 0m 0s"
  {
    DecomposeUnique(2 * MsPerDay, 2, 0, 0, 0);
  }
}
