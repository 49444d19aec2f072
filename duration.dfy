/**
 * The execution time shown by `log_detail`: the whole seconds between the
 * two stored timestamps, split into hours, minutes and seconds by floor
 * division and remainder (Python's `//` and `%` by a positive divisor agree
 * with Dafny's `/` and `%`), and written in the largest form whose leading
 * unit is positive.
 *
 * `ParseDuration` reads such a text back; it is the inverse that shows the
 * text keeps the decomposition and which form was chosen.
 */
module Duration {
  import opened Wrappers
  import Decimal

  datatype Span = Span(hours: int, minutes: int, seconds: int)

  /** The seconds a span stands for. */
  function Seconds(s: Span): int {
    s.hours * 3600 + s.minutes * 60 + s.seconds
  }

  /** `hours = t // 3600`, `minutes = (t % 3600) // 60`, `seconds = t % 60`. */
  function Decompose(total: int): (r: Span)
    ensures 0 <= r.minutes < 60 && 0 <= r.seconds < 60
  {
    Span(total / 3600, (total % 3600) / 60, total % 60)
  }

  /** Division with remainder by 60 has one answer. */
  lemma DivModUnique60(x: int, q: int, r: int)
    requires 0 <= r < 60 && x == q * 60 + r
    ensures x / 60 == q && x % 60 == r
  {
  }

  /** Division with remainder by 3600 has one answer. */
  lemma DivModUnique3600(x: int, q: int, r: int)
    requires 0 <= r < 3600 && x == q * 3600 + r
    ensures x / 3600 == q && x % 3600 == r
  {
  }

  /** The parts recombine to the total, and minutes and seconds are in range. */
  lemma DecomposeRecombines(total: int)
    ensures var s := Decompose(total);
      Seconds(s) == total && 0 <= s.minutes < 60 && 0 <= s.seconds < 60
  {
    var h, r := total / 3600, total % 3600;
    var m, s := r / 60, r % 60;
    assert r == m * 60 + s;
    assert total == (h * 60 + m) * 60 + s;
    DivModUnique60(total, h * 60 + m, s);
  }

  /** No other split with minutes and seconds in range gives the same total. */
  lemma DecomposeUnique(total: int, span: Span)
    requires 0 <= span.minutes < 60 && 0 <= span.seconds < 60
    requires Seconds(span) == total
    ensures Decompose(total) == span
  {
    var r := span.minutes * 60 + span.seconds;
    DivModUnique3600(total, span.hours, r);
    DivModUnique60(r, span.minutes, span.seconds);
    assert total == (span.hours * 60 + span.minutes) * 60 + span.seconds;
    DivModUnique60(total, span.hours * 60 + span.minutes, span.seconds);
  }

  const HoursUnit := "小时"
  const MinutesUnit := "分钟"
  const SecondsUnit := "秒"

  /** The text `log_detail` renders for a duration of `total` seconds. */
  function DurationText(total: int): (r: string)
    ensures |SecondsUnit| <= |r| && r[|r| - |SecondsUnit|..] == SecondsUnit
  {
    var s := Decompose(total);
    if s.hours > 0 then
      Decimal.NatToString(s.hours) + HoursUnit + Decimal.NatToString(s.minutes) + MinutesUnit
        + Decimal.NatToString(s.seconds) + SecondsUnit
    else if s.minutes > 0 then
      Decimal.NatToString(s.minutes) + MinutesUnit + Decimal.NatToString(s.seconds) + SecondsUnit
    else
      Decimal.NatToString(s.seconds) + SecondsUnit
  }

  datatype Form = HoursForm | MinutesForm | SecondsForm

  /** A duration text as read back: its form and the parts it spells out (absent parts are zero). */
  datatype Reading = Reading(form: Form, span: Span)

  /** Reads a number followed by `unit`, and returns the number and what follows the unit. */
  function ReadAmount(s: string, unit: string): Option<(nat, string)> {
    match Decimal.ReadNumber(s)
    case None => None
    case Some((n, rest)) => if unit <= rest then Some((n, rest[|unit|..])) else None
  }

  /** Reads a duration text in any of the three forms. */
  function ParseDuration(text: string): Option<Reading> {
    match ReadAmount(text, HoursUnit)
    case Some((h, afterHours)) =>
      (match ReadAmount(afterHours, MinutesUnit)
       case Some((m, afterMinutes)) =>
         (match ReadAmount(afterMinutes, SecondsUnit)
          case Some((s, tail)) => if tail == [] then Some(Reading(HoursForm, Span(h, m, s))) else None
          case None => None)
       case None => None)
    case None =>
      match ReadAmount(text, MinutesUnit)
      case Some((m, afterMinutes)) =>
        (match ReadAmount(afterMinutes, SecondsUnit)
         case Some((s, tail)) => if tail == [] then Some(Reading(MinutesForm, Span(0, m, s))) else None
         case None => None)
      case None =>
        match ReadAmount(text, SecondsUnit)
        case Some((s, tail)) => if tail == [] then Some(Reading(SecondsForm, Span(0, 0, s))) else None
        case None => None
  }

  lemma ReadAmountOf(n: nat, unit: string, rest: string)
    requires unit != [] && !Decimal.IsDigit(unit[0])
    ensures ReadAmount(Decimal.NatToString(n) + unit + rest, unit) == Some((n, rest))
  {
    var d := Decimal.NatToString(n);
    assert d + unit + rest == d + (unit + rest);
    Decimal.ReadNumberToString(n, unit + rest);
    assert (unit + rest)[|unit|..] == rest;
  }

  lemma ReadAmountOther(n: nat, unit: string, other: string, rest: string)
    requires unit != [] && other != [] && !Decimal.IsDigit(other[0]) && unit[0] != other[0]
    ensures ReadAmount(Decimal.NatToString(n) + other + rest, unit) == None
  {
    var d := Decimal.NatToString(n);
    assert d + other + rest == d + (other + rest);
    Decimal.ReadNumberToString(n, other + rest);
    assert (other + rest)[0] == other[0];
  }

  lemma ReadsHoursForm(h: nat, m: nat, sec: nat)
    ensures ParseDuration(Decimal.NatToString(h) + HoursUnit + Decimal.NatToString(m) + MinutesUnit
                          + Decimal.NatToString(sec) + SecondsUnit)
            == Some(Reading(HoursForm, Span(h, m, sec)))
  {
    var hs, ms, ss := Decimal.NatToString(h), Decimal.NatToString(m), Decimal.NatToString(sec);
    var afterHours := ms + MinutesUnit + (ss + SecondsUnit);
    assert hs + HoursUnit + ms + MinutesUnit + ss + SecondsUnit == hs + HoursUnit + afterHours;
    ReadAmountOf(h, HoursUnit, afterHours);
    ReadAmountOf(m, MinutesUnit, ss + SecondsUnit);
    ReadAmountOf(sec, SecondsUnit, []);
    assert ss + SecondsUnit + [] == ss + SecondsUnit;
  }

  lemma ReadsMinutesForm(m: nat, sec: nat)
    ensures ParseDuration(Decimal.NatToString(m) + MinutesUnit + Decimal.NatToString(sec) + SecondsUnit)
            == Some(Reading(MinutesForm, Span(0, m, sec)))
  {
    var ms, ss := Decimal.NatToString(m), Decimal.NatToString(sec);
    assert ms + MinutesUnit + ss + SecondsUnit == ms + MinutesUnit + (ss + SecondsUnit);
    ReadAmountOther(m, HoursUnit, MinutesUnit, ss + SecondsUnit);
    ReadAmountOf(m, MinutesUnit, ss + SecondsUnit);
    ReadAmountOf(sec, SecondsUnit, []);
    assert ss + SecondsUnit + [] == ss + SecondsUnit;
  }

  lemma ReadsSecondsForm(sec: nat)
    ensures ParseDuration(Decimal.NatToString(sec) + SecondsUnit) == Some(Reading(SecondsForm, Span(0, 0, sec)))
  {
    var ss := Decimal.NatToString(sec);
    assert ss + SecondsUnit == ss + SecondsUnit + [];
    ReadAmountOther(sec, HoursUnit, SecondsUnit, []);
    ReadAmountOther(sec, MinutesUnit, SecondsUnit, []);
    ReadAmountOf(sec, SecondsUnit, []);
  }

  /**
   * Reading the text back gives the decomposition: all three parts when
   * there are whole hours, else minutes and seconds when there are whole
   * minutes, else the seconds alone.
   */
  lemma DurationTextRoundTrip(total: int)
    ensures var s := Decompose(total);
      ParseDuration(DurationText(total)) ==
        if s.hours > 0 then Some(Reading(HoursForm, s))
        else if s.minutes > 0 then Some(Reading(MinutesForm, Span(0, s.minutes, s.seconds)))
        else Some(Reading(SecondsForm, Span(0, 0, s.seconds)))
  {
    var s := Decompose(total);
    DecomposeRecombines(total);
    if s.hours > 0 {
      ReadsHoursForm(s.hours, s.minutes, s.seconds);
    } else if s.minutes > 0 {
      ReadsMinutesForm(s.minutes, s.seconds);
    } else {
      ReadsSecondsForm(s.seconds);
    }
  }

  /**
   * The form depends on the total alone: hours from 3600 seconds up; below
   * that, minutes when the remainder modulo 3600 reaches a minute. A negative
   * total (finished before started by the wall clock) has no hours and is
   * shown by its remainder modulo 3600.
   */
  lemma DurationTextMeaning(total: int)
    ensures var reading := ParseDuration(DurationText(total));
      && reading.Some?
      && (reading.value.form == HoursForm <==> total >= 3600)
      && (reading.value.form == MinutesForm <==> total < 3600 && total % 3600 >= 60)
      && (reading.value.form == SecondsForm <==> total < 3600 && total % 3600 < 60)
      && Seconds(reading.value.span) == if total >= 0 then total else total % 3600
  {
    DurationTextRoundTrip(total);
    DecomposeRecombines(total);
    var s := Decompose(total);
    var r := total % 3600;
    assert total == s.hours * 3600 + r;
    DecomposeRecombines(r);
    DecomposeUnique(r, Span(0, s.minutes, s.seconds));
    if total >= 3600 {
      assert s.hours >= 1;
    } else if total >= 0 {
      assert s.hours == 0;
    } else {
      assert s.hours < 0;
    }
  }
}
