/** The pure parts of the timer face (components/TimerDisplay.tsx): the
    `mm:ss` text of the remaining seconds and the per-mode label and colours.
    The text is built the way JavaScript builds it: `Number.toString()` gives
    the decimal digits and `padStart(2, '0')` pads them on the left. */
module TimerDisplay {
  import opened Types

  predicate IsDigit(c: char) {
    '0' <= c <= '9'
  }

  predicate AllDigits(s: string) {
    forall i :: 0 <= i < |s| ==> IsDigit(s[i])
  }

  function DigitChar(d: nat): (c: char)
    requires d < 10
    ensures IsDigit(c)
  {
    "0123456789"[d]
  }

  function DigitValue(c: char): (d: nat)
    requires IsDigit(c)
    ensures d < 10
  {
    c as int - '0' as int
  }

  lemma DigitRoundTrip(d: nat)
    requires d < 10
    ensures DigitValue(DigitChar(d)) == d
  {
  }

  /** Decimal text of a non-negative integer, as `n.toString()` gives it:
      at least one digit and no leading zero. */
  function Digits(n: nat): (s: string)
    ensures 1 <= |s| && AllDigits(s)
    ensures |s| > 1 ==> s[0] != '0'
    ensures n < 10 <==> |s| == 1
    ensures n < 100 <==> |s| <= 2
  {
    if n < 10 then [DigitChar(n)] else Digits(n / 10) + [DigitChar(n % 10)]
  }

  /** The number the first `k` characters of a digit string denote. */
  function ValueOfPrefix(s: string, k: nat): nat
    requires k <= |s| && AllDigits(s)
  {
    if k == 0 then 0 else ValueOfPrefix(s, k - 1) * 10 + DigitValue(s[k - 1])
  }

  /** The number a string of decimal digits denotes (leading zeros allowed). */
  function Value(s: string): nat
    requires AllDigits(s)
  {
    ValueOfPrefix(s, |s|)
  }

  /** Appending characters does not change the value of a prefix. */
  lemma {:induction false} ValueOfPrefixAppend(s: string, t: string, k: nat)
    requires AllDigits(s) && AllDigits(t) && k <= |s|
    ensures AllDigits(s + t) && ValueOfPrefix(s + t, k) == ValueOfPrefix(s, k)
  {
    assert AllDigits(s + t) by {
      forall i | 0 <= i < |s + t| ensures IsDigit((s + t)[i]) {
        if i >= |s| {
          assert (s + t)[i] == t[i - |s|];
        }
      }
    }
    if k > 0 {
      ValueOfPrefixAppend(s, t, k - 1);
      assert (s + t)[k - 1] == s[k - 1];
    }
  }

  /** Reading back the decimal text of `n` gives `n`. */
  lemma {:induction false} ValueOfDigits(n: nat)
    ensures Value(Digits(n)) == n
  {
    var d := Digits(n);
    if n < 10 {
      calc {
        Value(d);
        ValueOfPrefix(d, 1);
        ValueOfPrefix(d, 0) * 10 + DigitValue(DigitChar(n));
        { DigitRoundTrip(n); }
        n;
      }
    } else {
      var high := Digits(n / 10);
      var low := [DigitChar(n % 10)];
      assert d == high + low;
      calc {
        Value(d);
        ValueOfPrefix(d, |high|) * 10 + DigitValue(d[|high|]);
        { ValueOfPrefixAppend(high, low, |high|); DigitRoundTrip(n % 10); }
        Value(high) * 10 + n % 10;
        { ValueOfDigits(n / 10); }
        n / 10 * 10 + n % 10;
        n;
      }
    }
  }

  /** `count` copies of `c`. */
  function Repeat(c: char, count: nat): (r: string)
    ensures |r| == count && forall i :: 0 <= i < count ==> r[i] == c
  {
    seq(count, _ => c)
  }

  /** JavaScript's `s.padStart(width, c)` for a one-character pad string. */
  function PadStart(s: string, width: nat, c: char): (r: string)
    ensures |r| == if |s| >= width then |s| else width
    ensures forall i :: 0 <= i < |r| - |s| ==> r[i] == c
    ensures forall i :: 0 <= i < |s| ==> r[|r| - |s| + i] == s[i]
  {
    if |s| >= width then s else Repeat(c, width - |s|) + s
  }

  lemma {:induction false} ValueOfZeros(z: string, k: nat)
    requires forall i :: 0 <= i < |z| ==> z[i] == '0'
    requires k <= |z|
    ensures AllDigits(z) && ValueOfPrefix(z, k) == 0
  {
    if k > 0 {
      ValueOfZeros(z, k - 1);
    }
  }

  /** Leading zeros do not change the value of a digit string: the first
      `|z| + k` characters of `z + s` are worth the first `k` of `s`. */
  lemma {:induction false} ValueLeadingZeros(z: string, s: string, k: nat)
    requires forall i :: 0 <= i < |z| ==> z[i] == '0'
    requires AllDigits(s) && k <= |s|
    ensures AllDigits(z + s) && ValueOfPrefix(z + s, |z| + k) == ValueOfPrefix(s, k)
  {
    ValueOfZeros(z, |z|);
    ValueOfPrefixAppend(z, s, |z|);
    if k > 0 {
      ValueLeadingZeros(z, s, k - 1);
      assert (z + s)[|z| + k - 1] == s[k - 1];
    }
  }

  /** Left-padding with zeros keeps the value and the digits. */
  lemma ValueOfPadded(s: string, width: nat)
    requires AllDigits(s)
    ensures AllDigits(PadStart(s, width, '0'))
    ensures Value(PadStart(s, width, '0')) == Value(s)
  {
    if |s| < width {
      ValueLeadingZeros(Repeat('0', width - |s|), s, |s|);
    }
  }

  /** Whole minutes and leftover seconds of a second count:
      `Math.floor(seconds / 60)` and `seconds % 60`. */
  function MinSec(seconds: nat): (r: (nat, nat))
    ensures r.1 < 60
    ensures r.0 * 60 + r.1 == seconds
  {
    (seconds / 60, seconds % 60)
  }

  /** Two-digit-or-more, zero-padded field. */
  function Field(n: nat): string {
    PadStart(Digits(n), 2, '0')
  }

  /** The clock text `mm:ss` shown in the middle of the ring. */
  function FormatTime(seconds: nat): string {
    var ms := MinSec(seconds);
    Field(ms.0) + ":" + Field(ms.1)
  }

  /** Inverse reading of the clock text: everything before the last three
      characters is the minutes, the last two are the seconds. */
  function ParseTime(t: string): Option<nat> {
    if |t| < 4 || t[|t| - 3] != ':' then None
    else
      var mins := t[..|t| - 3];
      var secs := t[|t| - 2..];
      if AllDigits(mins) && AllDigits(secs) && Value(secs) < 60
      then Some(Value(mins) * 60 + Value(secs))
      else None
  }

  /** A field of a value below 100 is its two digits, tens first. */
  lemma FieldOfSmall(n: nat)
    requires n < 100
    ensures Field(n) == [DigitChar(n / 10), DigitChar(n % 10)]
  {
    if n < 10 {
      assert n / 10 == 0 && n % 10 == n;
      assert Digits(n) == [DigitChar(n)];
      assert Field(n) == Repeat('0', 1) + [DigitChar(n)];
    } else {
      var q, r := n / 10, n % 10;
      assert q < 10;
      assert Digits(q) == [DigitChar(q)];
      assert Digits(n) == [DigitChar(q)] + [DigitChar(r)];
    }
  }

  /** Every field is at least two digits, exactly two below 100, and
      denotes its number. */
  lemma FieldValue(n: nat)
    ensures |Field(n)| >= 2 && AllDigits(Field(n)) && Value(Field(n)) == n
    ensures n < 100 ==> |Field(n)| == 2
  {
    var d := Digits(n);
    ValueOfDigits(n);
    ValueOfPadded(d, 2);
    assert Field(n) == PadStart(d, 2, '0');
  }

  /** Reading `m:s` where `s` is two digits. */
  lemma ParseOfJoin(m: string, s: string)
    requires |m| >= 1 && AllDigits(m)
    requires |s| == 2 && AllDigits(s) && Value(s) < 60
    ensures ParseTime(m + ":" + s) == Some(Value(m) * 60 + Value(s))
  {
    var t := m + ":" + s;
    assert t[..|t| - 3] == m;
    assert t[|t| - 2..] == s;
  }

  /** Reading back two joined fields gives minutes and seconds. */
  lemma ParseFields(mins: nat, secs: nat)
    requires secs < 60
    ensures ParseTime(Field(mins) + ":" + Field(secs)) == Some(mins * 60 + secs)
  {
    FieldValue(mins);
    FieldValue(secs);
    ParseOfJoin(Field(mins), Field(secs));
  }

  /** Round trip: the clock text always reads back as the same second count. */
  lemma ParseFormatTime(seconds: nat)
    ensures ParseTime(FormatTime(seconds)) == Some(seconds)
  {
    var ms := MinSec(seconds);
    ParseFields(ms.0, ms.1);
  }

  /** Distinct second counts are shown as distinct texts. */
  lemma FormatTimeInjective(a: nat, b: nat)
    requires FormatTime(a) == FormatTime(b)
    ensures a == b
  {
    ParseFormatTime(a);
    ParseFormatTime(b);
  }

  /** Below 100 minutes (every timer value is at most 1500 s) the text is
      exactly five characters `dd:dd`: minute tens, minute units, the colon,
      second tens, second units. */
  lemma FormatTimeShape(seconds: nat)
    requires seconds < 6000
    ensures FormatTime(seconds) == [DigitChar(seconds / 60 / 10), DigitChar(seconds / 60 % 10), ':',
                                    DigitChar(seconds % 60 / 10), DigitChar(seconds % 60 % 10)]
  {
    FieldOfSmall(seconds / 60);
    FieldOfSmall(seconds % 60);
  }

  /** The text at the start of each phase. */
  function StartText(m: TimerMode): string {
    match m
    case Focus => "25:00"
    case ShortBreak => "05:00"
    case LongBreak => "15:00"
  }

  /** The start texts spelled digit by digit from the durations. */
  lemma StartTextDigits(m: TimerMode)
    ensures StartText(m) == [DigitChar(Duration(m) / 600), DigitChar(Duration(m) / 60 % 10), ':', '0', '0']
  {
    assert DigitChar(0) == '0' && DigitChar(1) == '1' && DigitChar(2) == '2' && DigitChar(5) == '5';
  }

  /** A fresh phase shows 25:00, 05:00 or 15:00. */
  lemma FormatTimeOfDuration(m: TimerMode)
    ensures FormatTime(Duration(m)) == StartText(m)
  {
    var d := Duration(m);
    FormatTimeShape(d);
    assert d % 60 == 0 && d / 60 / 10 == d / 600;
    assert DigitChar(0) == '0';
    StartTextDigits(m);
  }

  /** Heading shown above the clock. */
  function Label(m: TimerMode): string {
    match m
    case Focus => "专注时间"
    case ShortBreak => "短暂休息"
    case LongBreak => "长休息"
  }

  /** Ring stroke and text colour classes. */
  function Color(m: TimerMode): string {
    match m
    case Focus => "stroke-rose-500 text-rose-500"
    case ShortBreak => "stroke-emerald-500 text-emerald-500"
    case LongBreak => "stroke-blue-500 text-blue-500"
  }

  /** Background colour class. */
  function BgColor(m: TimerMode): string {
    match m
    case Focus => "bg-rose-100"
    case ShortBreak => "bg-emerald-100"
    case LongBreak => "bg-blue-100"
  }

  /** Each mode has a non-empty label and colours of its own. */
  lemma ModeDisplayDistinct(m1: TimerMode, m2: TimerMode)
    ensures Label(m1) != [] && Color(m1) != [] && BgColor(m1) != []
    ensures Label(m1) == Label(m2) <==> m1 == m2
    ensures Color(m1) == Color(m2) <==> m1 == m2
    ensures BgColor(m1) == BgColor(m2) <==> m1 == m2
  {
  }
}
