/** The time-of-day format of the schedule forms and the `toSeconds` helper that orders two
    times; both screens declare the same pattern and the same helper. */
module TimeFormat {
  import opened JsValues
  import opened Regex

  const Digit := Range('0', '9')
  /** `([01]\d|2[0-3])` */
  const HourPattern := Alt(Cat(Range('0', '1'), Digit), Cat(Range('2', '2'), Range('0', '3')))
  /** `([0-5]\d)` */
  const SexagesimalPattern := Cat(Range('0', '5'), Digit)
  const Colon := Range(':', ':')
  /** `^([01]\d|2[0-3]):([0-5]\d):([0-5]\d)$` */
  const TimeRegex := Cat(HourPattern, Cat(Colon, Cat(SexagesimalPattern, Cat(Colon, SexagesimalPattern))))

  /** Exactly `DD:DD:DD` with ASCII digits, whatever their values. */
  predicate ClockShape(s: string)
  {
    |s| == 8 && s[2] == ':' && s[5] == ':' &&
    IsDigit(s[0]) && IsDigit(s[1]) && IsDigit(s[3]) && IsDigit(s[4]) && IsDigit(s[6]) && IsDigit(s[7])
  }

  function Hours(s: string): nat requires ClockShape(s) { 10 * DigitValue(s[0]) + DigitValue(s[1]) }
  function Minutes(s: string): nat requires ClockShape(s) { 10 * DigitValue(s[3]) + DigitValue(s[4]) }
  function Seconds(s: string): nat requires ClockShape(s) { 10 * DigitValue(s[6]) + DigitValue(s[7]) }

  /** The fields are within the ranges the pattern allows: hour 00-23, minute and second 00-59. */
  predicate InRange(s: string)
    requires ClockShape(s)
  {
    Hours(s) <= 23 && Minutes(s) <= 59 && Seconds(s) <= 59
  }

  /** Seconds since midnight of a `DD:DD:DD` string, read field by field. */
  function ElapsedSeconds(s: string): nat
    requires ClockShape(s)
  {
    Hours(s) * 3600 + Minutes(s) * 60 + Seconds(s)
  }

  /** `[01]\d|2[0-3]` read as a number: 00 to 23. */
  predicate HourDigits(c0: char, c1: char)
  {
    IsDigit(c0) && IsDigit(c1) && 10 * DigitValue(c0) + DigitValue(c1) <= 23
  }

  /** `[0-5]\d` read as a number: 00 to 59. */
  predicate SexagesimalDigits(c0: char, c1: char)
  {
    IsDigit(c0) && IsDigit(c1) && 10 * DigitValue(c0) + DigitValue(c1) <= 59
  }

  lemma HourPrefix(rest: Re, t: string)
    ensures FullMatch(Cat(HourPattern, rest), t) <==>
      |t| >= 2 && HourDigits(t[0], t[1]) && FullMatch(rest, t[2..])
  {
    CatMatch(HourPattern, rest, t);
    if |t| >= 2 {
      var p := t[..2];
      CatMatch(Range('0', '1'), Digit, p);
      CatMatch(Range('2', '2'), Range('0', '3'), p);
      assert p[..1] == [t[0]] && p[1..] == [t[1]];
    }
  }

  lemma SexagesimalPrefix(rest: Re, t: string)
    ensures FullMatch(Cat(SexagesimalPattern, rest), t) <==>
      |t| >= 2 && SexagesimalDigits(t[0], t[1]) && FullMatch(rest, t[2..])
  {
    CatMatch(SexagesimalPattern, rest, t);
    if |t| >= 2 {
      var p := t[..2];
      CatMatch(Range('0', '5'), Digit, p);
      assert p[..1] == [t[0]] && p[1..] == [t[1]];
    }
  }

  lemma SexagesimalExact(t: string)
    ensures FullMatch(SexagesimalPattern, t) <==> |t| == 2 && SexagesimalDigits(t[0], t[1])
  {
    CatMatch(Range('0', '5'), Digit, t);
    if |t| >= 1 {
      assert t[..1] == [t[0]];
    }
  }

  lemma ColonPrefix(rest: Re, t: string)
    ensures FullMatch(Cat(Colon, rest), t) <==> |t| >= 1 && t[0] == ':' && FullMatch(rest, t[1..])
  {
    CatMatch(Colon, rest, t);
  }

  /** The pattern accepts exactly the `DD:DD:DD` strings whose hour is at most 23 and whose
      minute and second are at most 59. */
  lemma {:induction false} TimeRegexMatch(s: string)
    ensures FullMatch(TimeRegex, s) <==> ClockShape(s) && InRange(s)
  {
    var afterMinute := Cat(Colon, SexagesimalPattern);
    var afterColon := Cat(SexagesimalPattern, afterMinute);
    var afterHour := Cat(Colon, afterColon);
    assert TimeRegex == Cat(HourPattern, afterHour);
    HourPrefix(afterHour, s);
    if |s| >= 2 {
      var t := s[2..];
      ColonPrefix(afterColon, t);
      if |t| >= 1 {
        var u := t[1..];
        SexagesimalPrefix(afterMinute, u);
        if |u| >= 2 {
          var v := u[2..];
          ColonPrefix(SexagesimalPattern, v);
          if |v| >= 1 {
            var w := v[1..];
            SexagesimalExact(w);
            assert |w| == |s| - 6;
            if |w| == 2 {
              assert t[0] == s[2] && u[0] == s[3] && u[1] == s[4];
              assert v[0] == s[5] && w[0] == s[6] && w[1] == s[7];
            }
          }
        }
      }
    }
  }

  /** The string passes the yup `matches(timeRegex)` rule: exactly the `DD:DD:DD` strings with
      fields in range. */
  predicate WellFormed(s: string)
    ensures WellFormed(s) <==> ClockShape(s) && InRange(s)
  {
    TimeRegexMatch(s);
    FullMatch(TimeRegex, s)
  }

  lemma ClockShapeSplits(s: string)
    requires ClockShape(s)
    ensures Split(s, ':') == [s[..2], s[3..5], s[6..]]
  {
    var parts := [s[..2], s[3..5], s[6..]];
    assert Join(parts, ':') == s by {
      assert parts[1..] == [s[3..5], s[6..]];
      assert parts[1..][1..] == [s[6..]];
      assert Join(parts[1..], ':') == s[3..5] + [':'] + s[6..];
      assert s == s[..2] + [':'] + s[3..5] + [':'] + s[6..];
    }
    forall i | 0 <= i < |parts| ensures ':' !in parts[i] {
      assert |parts[i]| == 2;
      assert IsDigit(parts[i][0]) && IsDigit(parts[i][1]);
    }
    SplitJoin(parts, ':');
  }

  /** The helper `toSeconds` of the `is-greater` test: split on ':', convert every piece with
      `Number`, destructure the first three and compute h * 3600 + m * 60 + s. The result is a
      number exactly when there are three pieces or more and the first three are digit strings;
      on every `DD:DD:DD` string, in range or not, it is the elapsed seconds read field by field. */
  function ToSeconds(time: string): (r: JsNumber)
    ensures r.Num? <==>
      |Split(time, ':')| >= 3 && forall i :: 0 <= i < 3 ==> AllDigits(Split(time, ':')[i])
    ensures ClockShape(time) ==> r == Num(ElapsedSeconds(time))
  {
    var parts := Split(time, ':');
    var numbers := seq(|parts|, i requires 0 <= i < |parts| => ToNumber(parts[i]));
    var r := Plus(Plus(Times(Element(numbers, 0), 3600), Times(Element(numbers, 1), 60)), Element(numbers, 2));
    if ClockShape(time) then
      ClockShapeSplits(time);
      TwoDigitNumber(time[0], time[1]);
      TwoDigitNumber(time[3], time[4]);
      TwoDigitNumber(time[6], time[7]);
      assert parts[0] == [time[0], time[1]] && parts[1] == [time[3], time[4]] && parts[2] == [time[6], time[7]];
      r
    else
      r
  }

  /** A well-formed time lies within one day, and `toSeconds` gives its elapsed seconds. */
  lemma WellFormedWithinDay(s: string)
    requires WellFormed(s)
    ensures ToSeconds(s) == Num(ElapsedSeconds(s)) && ElapsedSeconds(s) <= 86399
  {
  }

  lemma MixedRadix(h1: nat, m1: nat, s1: nat, h2: nat, m2: nat, s2: nat)
    requires m1 <= 59 && s1 <= 59 && m2 <= 59 && s2 <= 59
    ensures h1 * 3600 + m1 * 60 + s1 == h2 * 3600 + m2 * 60 + s2 <==> h1 == h2 && m1 == m2 && s1 == s2
    ensures h1 * 3600 + m1 * 60 + s1 < h2 * 3600 + m2 * 60 + s2 <==>
      h1 < h2 || (h1 == h2 && m1 < m2) || (h1 == h2 && m1 == m2 && s1 < s2)
  {
  }

  /** In range, the fields of a `DD:DD:DD` string are determined by its elapsed seconds. */
  lemma ClockFieldsInjective(a: string, b: string)
    requires ClockShape(a) && Minutes(a) <= 59 && Seconds(a) <= 59
    requires ClockShape(b) && Minutes(b) <= 59 && Seconds(b) <= 59
    ensures ElapsedSeconds(a) == ElapsedSeconds(b) <==> a == b
  {
    MixedRadix(Hours(a), Minutes(a), Seconds(a), Hours(b), Minutes(b), Seconds(b));
    if ElapsedSeconds(a) == ElapsedSeconds(b) {
      assert a[0] == b[0] && a[1] == b[1] && a[3] == b[3] && a[4] == b[4] && a[6] == b[6] && a[7] == b[7];
      assert forall i | 0 <= i < 8 :: a[i] == b[i];
    }
  }

  /** Two well-formed times are the same instant only when they are the same string. */
  lemma {:induction false} ElapsedSecondsInjective(a: string, b: string)
    requires WellFormed(a) && WellFormed(b)
    ensures ClockShape(a) && ClockShape(b)
    ensures ElapsedSeconds(a) == ElapsedSeconds(b) <==> a == b
  {
    ClockFieldsInjective(a, b);
  }

  /** Comparing elapsed seconds of well-formed times is comparing (hour, minute, second)
      lexicographically, on one day: there is no wrap-around past midnight. */
  lemma {:induction false} ElapsedSecondsOrder(a: string, b: string)
    requires WellFormed(a) && WellFormed(b)
    ensures ClockShape(a) && ClockShape(b)
    ensures ElapsedSeconds(a) < ElapsedSeconds(b) <==>
      Hours(a) < Hours(b) ||
      (Hours(a) == Hours(b) && Minutes(a) < Minutes(b)) ||
      (Hours(a) == Hours(b) && Minutes(a) == Minutes(b) && Seconds(a) < Seconds(b))
  {
    MixedRadix(Hours(a), Minutes(a), Seconds(a), Hours(b), Minutes(b), Seconds(b));
  }

  /** A single-digit hour and hour 24 are refused; so is minute 60. */
  lemma RejectedExamples()
    ensures !WellFormed("8:00:00")
    ensures !WellFormed("24:00:00")
    ensures !WellFormed("12:60:00")
  {
  }

  /** The last second of the day is accepted and is second 86399. */
  lemma LastSecondExample()
    ensures WellFormed("23:59:59") && ElapsedSeconds("23:59:59") == 86399
  {
  }

  /** `toSeconds` does not check the range: "25:00:00" is 90000 seconds. */
  lemma OutOfRangeExample()
    ensures ToSeconds("25:00:00") == Num(90000)
  {
  }
}
