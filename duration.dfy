/**
 * The duration formatter of the time-on-task report: a second count is split into
 * days, hours, minutes and seconds and printed as "<n><suffix>" segments, the
 * higher units only when non-zero and the seconds always.
 *
 * The four suffixes are the localised strings the platform returns for 'days',
 * 'hours', 'minuts' and 'seconds'; they are inputs here.
 */
module Duration {
  import opened Wrappers
  import opened Decimal

  /** The bases of the conversion: a minute, an hour (60 minutes) and a day (24 hours). */
  const MinuteSeconds: int := 60
  const HourSeconds: int := 3600
  const DaySeconds: int := 86400

  /** PHP `(int) ($a / $b)` for a positive divisor: the quotient truncated toward zero. */
  function TruncDiv(a: int, b: int): (q: int)
    requires b > 0
    ensures a >= 0 ==> 0 <= a - q * b < b
    ensures a < 0 ==> -b < a - q * b <= 0
  {
    if a >= 0 then a / b else -((-a) / b)
  }

  datatype Parts = Parts(days: int, hours: int, minutes: int, seconds: int)

  /** The parts put back together. */
  function Total(p: Parts): int {
    p.days * DaySeconds + p.hours * HourSeconds + p.minutes * MinuteSeconds + p.seconds
  }

  /** Every part carries the sign of the total and the lower parts stay within their base. */
  predicate InRange(p: Parts, total: int) {
    if total >= 0 then
      p.days >= 0 && 0 <= p.hours < 24 && 0 <= p.minutes < 60 && 0 <= p.seconds < 60
    else
      p.days <= 0 && -24 < p.hours <= 0 && -60 < p.minutes <= 0 && -60 < p.seconds <= 0
  }

  /** The day, hour, minute and second parts of a second count. */
  function Decompose(total: int): (p: Parts)
    ensures Total(p) == total
    ensures InRange(p, total)
  {
    var days := TruncDiv(total, DaySeconds);
    var afterDays := total - days * DaySeconds;
    var hours := TruncDiv(afterDays, HourSeconds);
    var afterHours := afterDays - hours * HourSeconds;
    var minutes := TruncDiv(afterHours, MinuteSeconds);
    Parts(days, hours, minutes, afterHours - minutes * MinuteSeconds)
  }

  /** The decomposition is the only one with these bounds that adds up to the total. */
  lemma DecomposeUnique(total: int, p: Parts)
    requires Total(p) == total && InRange(p, total)
    ensures p == Decompose(total)
  {
    var q := Decompose(total);
    var rp := p.hours * 3600 + p.minutes * 60 + p.seconds;
    var rq := q.hours * 3600 + q.minutes * 60 + q.seconds;
    assert -86400 < rp - rq < 86400;
    BaseDigitUnique(p.days, q.days, rp, rq, 86400);
    var sp := p.minutes * 60 + p.seconds;
    var sq := q.minutes * 60 + q.seconds;
    assert -3600 < sp - sq < 3600;
    BaseDigitUnique(p.hours, q.hours, sp, sq, 3600);
    BaseDigitUnique(p.minutes, q.minutes, p.seconds, q.seconds, 60);
  }

  /** Two ways of writing one number as a multiple of a base plus a remainder narrower than the base agree. */
  lemma BaseDigitUnique(a: int, b: int, ra: int, rb: int, base: int)
    requires base > 0
    requires a * base + ra == b * base + rb
    requires -base < ra - rb < base
    ensures a == b && ra == rb
  {
    if a > b {
      assert a * base - b * base == (a - b) * base;
      MultipleAtLeastBase(a - b, base);
    } else if a < b {
      assert b * base - a * base == (b - a) * base;
      MultipleAtLeastBase(b - a, base);
    }
  }

  lemma {:induction false} MultipleAtLeastBase(k: int, base: int)
    requires k >= 1 && base > 0
    ensures k * base >= base
  {
    if k > 1 {
      MultipleAtLeastBase(k - 1, base);
      assert k * base == (k - 1) * base + base;
    }
  }

  datatype Unit = Day | Hour | Minute | Second

  /** The localised suffix of each unit. */
  datatype Units = Units(days: string, hours: string, minutes: string, seconds: string)

  function Suffix(u: Units, unit: Unit): string {
    match unit
    case Day => u.days
    case Hour => u.hours
    case Minute => u.minutes
    case Second => u.seconds
  }

  function Weight(unit: Unit): int {
    match unit
    case Day => DaySeconds
    case Hour => HourSeconds
    case Minute => MinuteSeconds
    case Second => 1
  }

  /** Position of a unit in the output, largest unit first. */
  function Rank(unit: Unit): nat {
    match unit
    case Day => 0
    case Hour => 1
    case Minute => 2
    case Second => 3
  }

  function PartOf(p: Parts, unit: Unit): int {
    match unit
    case Day => p.days
    case Hour => p.hours
    case Minute => p.minutes
    case Second => p.seconds
  }

  datatype Segment = Segment(value: int, unit: Unit)

  /** The seconds a list of segments stands for. */
  function Sum(segs: seq<Segment>): int {
    if segs == [] then 0 else segs[0].value * Weight(segs[0].unit) + Sum(segs[1..])
  }

  lemma {:induction false} SumConcat(a: seq<Segment>, b: seq<Segment>)
    ensures Sum(a + b) == Sum(a) + Sum(b)
  {
    if a != [] {
      assert (a + b)[0] == a[0];
      assert (a + b)[1..] == a[1..] + b;
      SumConcat(a[1..], b);
      assert Sum(a + b) == a[0].value * Weight(a[0].unit) + Sum(a[1..] + b);
    } else {
      assert a + b == b;
    }
  }

  /** A part printed only when non-zero: zero or one segment. */
  function Optional(value: int, unit: Unit): (segs: seq<Segment>)
    ensures Sum(segs) == value * Weight(unit)
  {
    if value != 0 then [Segment(value, unit)] else []
  }

  /** The segments the formatter prints, in order. */
  function Segments(total: int): (segs: seq<Segment>)
    ensures |segs| >= 1
    ensures Sum(segs) == total
  {
    var p := Decompose(total);
    var d, h, m, s := Optional(p.days, Day), Optional(p.hours, Hour), Optional(p.minutes, Minute), [Segment(p.seconds, Second)];
    SumConcat(d, h);
    SumConcat(d + h, m);
    SumConcat(d + h + m, s);
    d + h + m + s
  }

  /** The text of a list of segments: each value's decimal text followed by its suffix. */
  function Render(segs: seq<Segment>, u: Units): string {
    if segs == [] then "" else IntToDecimal(segs[0].value) + Suffix(u, segs[0].unit) + Render(segs[1..], u)
  }

  /** block_timestat_seconds_to_stringtime: the text always ends with the seconds and their suffix. */
  function SecondsToStringTime(total: int, u: Units): (s: string)
    ensures EndsWith(s, IntToDecimal(Decompose(total).seconds) + u.seconds)
  {
    SegmentsLast(total);
    RenderLast(Segments(total), u);
    Render(Segments(total), u)
  }

  /**
   * Which segments are printed: the units appear largest first, a unit other than
   * seconds appears exactly when its part is non-zero, the seconds always appear
   * last, and every printed value is that unit's part of the decomposition.
   */
  lemma SegmentsShape(total: int)
    ensures var segs := Segments(total);
      && segs[|segs| - 1] == Segment(Decompose(total).seconds, Second)
      && (forall i, j :: 0 <= i < j < |segs| ==> Rank(segs[i].unit) < Rank(segs[j].unit))
      && (forall i :: 0 <= i < |segs| ==> segs[i].value == PartOf(Decompose(total), segs[i].unit))
      && (forall unit :: (exists i :: 0 <= i < |segs| && segs[i].unit == unit)
                         <==> unit == Second || PartOf(Decompose(total), unit) != 0)
  {
    var segs := Segments(total);
    var p := Decompose(total);
    forall unit ensures (exists i :: 0 <= i < |segs| && segs[i].unit == unit)
                        <==> unit == Second || PartOf(p, unit) != 0
    {
      if unit == Second || PartOf(p, unit) != 0 {
        assert Segment(PartOf(p, unit), unit) in segs;
      }
    }
  }

  lemma SegmentsLast(total: int)
    ensures var segs := Segments(total); segs[|segs| - 1] == Segment(Decompose(total).seconds, Second)
  {
  }

  lemma {:induction false} RenderLast(segs: seq<Segment>, u: Units)
    requires |segs| > 0
    ensures var last := segs[|segs| - 1];
      EndsWith(Render(segs, u), IntToDecimal(last.value) + Suffix(u, last.unit))
  {
    var head := IntToDecimal(segs[0].value) + Suffix(u, segs[0].unit);
    var rest := Render(segs[1..], u);
    assert Render(segs, u) == head + rest;
    if |segs| > 1 {
      RenderLast(segs[1..], u);
      assert segs[1..][|segs[1..]| - 1] == segs[|segs| - 1];
      var last := segs[|segs| - 1];
      EndsWithAfterPrefix(head, rest, IntToDecimal(last.value) + Suffix(u, last.unit));
    } else {
      assert rest == "";
      assert head + rest == head;
    }
  }

  /** `tail` is the end of `s`. */
  predicate EndsWith(s: string, tail: string) {
    |tail| <= |s| && s[|s| - |tail|..] == tail
  }

  lemma EndsWithAfterPrefix(head: string, rest: string, tail: string)
    requires EndsWith(rest, tail)
    ensures EndsWith(head + rest, tail)
  {
    assert (head + rest)[|head + rest| - |tail|..] == rest[|rest| - |tail|..];
  }

  // Reading a formatted duration back.

  /** Characters a suffix may use so that the text can be split unambiguously. */
  predicate SuffixChar(c: char) {
    !IsDigit(c) && c != '-'
  }

  /** Non-empty, digit-free and pairwise distinct suffixes. */
  predicate WellFormedUnits(u: Units) {
    && (forall unit :: |Suffix(u, unit)| > 0)
    && (forall unit, i :: 0 <= i < |Suffix(u, unit)| ==> SuffixChar(Suffix(u, unit)[i]))
    && (forall a, b :: a != b ==> Suffix(u, a) != Suffix(u, b))
  }

  /** Length of the leading run of digits. */
  function DigitRun(s: string): (n: nat)
    ensures n <= |s| && AllDigits(s[..n])
  {
    if s == [] || !IsDigit(s[0]) then 0 else 1 + DigitRun(s[1..])
  }

  /** Length of the leading run of suffix characters. */
  function SuffixRun(s: string): (n: nat)
    ensures n <= |s|
  {
    if s == [] || !SuffixChar(s[0]) then 0 else 1 + SuffixRun(s[1..])
  }

  function UnitOf(u: Units, suffix: string): Option<Unit> {
    if suffix == u.days then Some(Day)
    else if suffix == u.hours then Some(Hour)
    else if suffix == u.minutes then Some(Minute)
    else if suffix == u.seconds then Some(Second)
    else None
  }

  /** Reads one value/suffix segment at the start of a text, with the number of characters it spans. */
  function ReadSegment(s: string, u: Units): (r: Option<(Segment, nat)>)
    ensures r.Some? ==> 0 < r.value.1 <= |s|
  {
    var sign := if |s| > 0 && s[0] == '-' then 1 else 0;
    var digits := DigitRun(s[sign..]);
    var numberEnd := sign + digits;
    var suffixLength := SuffixRun(s[numberEnd..]);
    if digits == 0 || suffixLength == 0 then None
    else
      match (ParseInt(s[..numberEnd]), UnitOf(u, s[numberEnd..numberEnd + suffixLength]))
      case (Some(v), Some(unit)) => Some((Segment(v, unit), numberEnd + suffixLength))
      case _ => None
  }

  /** Splits a text into value/suffix segments. */
  function ParseSegments(s: string, u: Units): Option<seq<Segment>>
    decreases |s|
  {
    if s == [] then Some([])
    else
      match ReadSegment(s, u)
      case None => None
      case Some((seg, length)) =>
        match ParseSegments(s[length..], u)
        case Some(rest) => Some([seg] + rest)
        case None => None
  }

  /** The number of seconds a formatted duration stands for, if it parses. */
  function ParseStringTime(s: string, u: Units): Option<int> {
    match ParseSegments(s, u)
    case Some(segs) => Some(Sum(segs))
    case None => None
  }

  lemma {:induction false} DigitRunConcat(a: string, b: string)
    requires AllDigits(a)
    requires b == [] || !IsDigit(b[0])
    ensures DigitRun(a + b) == |a|
  {
    if a != [] {
      assert (a + b)[1..] == a[1..] + b;
      DigitRunConcat(a[1..], b);
    }
  }

  lemma {:induction false} SuffixRunConcat(a: string, b: string)
    requires forall i :: 0 <= i < |a| ==> SuffixChar(a[i])
    requires b == [] || !SuffixChar(b[0])
    ensures SuffixRun(a + b) == |a|
  {
    if a != [] {
      assert (a + b)[1..] == a[1..] + b;
      SuffixRunConcat(a[1..], b);
    }
  }

  lemma UnitOfSuffix(u: Units, unit: Unit)
    requires WellFormedUnits(u)
    ensures UnitOf(u, Suffix(u, unit)) == Some(unit)
  {
    assert Suffix(u, Day) != Suffix(u, Hour) && Suffix(u, Day) != Suffix(u, Minute);
    assert Suffix(u, Day) != Suffix(u, Second) && Suffix(u, Hour) != Suffix(u, Minute);
    assert Suffix(u, Hour) != Suffix(u, Second) && Suffix(u, Minute) != Suffix(u, Second);
  }

  /** A rendered text is empty or starts with a digit or a minus sign. */
  lemma RenderStart(segs: seq<Segment>, u: Units)
    ensures var s := Render(segs, u); s == [] || !SuffixChar(s[0])
  {
  }

  /** A number's text followed by a non-digit: the sign and digit run end with the number, which reads back. */
  lemma ReadNumber(value: int, tail: string)
    requires tail != [] && !IsDigit(tail[0]) && tail[0] != '-'
    ensures var number := IntToDecimal(value);
      var s := number + tail;
      var sign := if |s| > 0 && s[0] == '-' then 1 else 0;
      && sign + DigitRun(s[sign..]) == |number|
      && DigitRun(s[sign..]) > 0
      && s[..|number|] == number
      && s[|number|..] == tail
      && ParseInt(number) == Some(value)
  {
    var number := IntToDecimal(value);
    var s := number + tail;
    var sign := if s[0] == '-' then 1 else 0;
    assert s[sign..] == number[sign..] + tail;
    DigitRunConcat(number[sign..], tail);
    IntToDecimalRoundTrip(value);
  }

  /** The text of one segment, followed by a rendered text, reads back as that segment. */
  lemma ReadRenderedSegment(seg: Segment, rest: string, u: Units)
    requires WellFormedUnits(u)
    requires rest == [] || !SuffixChar(rest[0])
    ensures var number, suffix := IntToDecimal(seg.value), Suffix(u, seg.unit);
      ReadSegment(number + suffix + rest, u) == Some((seg, |number| + |suffix|))
  {
    var number, suffix := IntToDecimal(seg.value), Suffix(u, seg.unit);
    assert SuffixChar(suffix[0]);
    ReadNumber(seg.value, suffix + rest);
    var s := number + suffix + rest;
    assert s == number + (suffix + rest);
    SuffixRunConcat(suffix, rest);
    assert s[|number|..][..|suffix|] == suffix;
    UnitOfSuffix(u, seg.unit);
  }

  /** Any list of segments is recovered from its text when the suffixes are well formed. */
  lemma {:induction false} ParseRenderRoundTrip(segs: seq<Segment>, u: Units)
    requires WellFormedUnits(u)
    ensures ParseSegments(Render(segs, u), u) == Some(segs)
  {
    if segs != [] {
      var number, suffix, rest := IntToDecimal(segs[0].value), Suffix(u, segs[0].unit), Render(segs[1..], u);
      var s := Render(segs, u);
      assert s == number + suffix + rest;
      RenderStart(segs[1..], u);
      ReadRenderedSegment(segs[0], rest, u);
      assert s[|number| + |suffix|..] == rest;
      ParseRenderRoundTrip(segs[1..], u);
      assert [segs[0]] + segs[1..] == segs;
    }
  }

  /** Reading a formatted duration back gives the original second count. */
  lemma StringTimeRoundTrip(total: int, u: Units)
    requires WellFormedUnits(u)
    ensures ParseStringTime(SecondsToStringTime(total, u), u) == Some(total)
  {
    ParseRenderRoundTrip(Segments(total), u);
  }

  /** Distinct second counts are printed differently. */
  lemma StringTimeInjective(a: int, b: int, u: Units)
    requires WellFormedUnits(u)
    ensures SecondsToStringTime(a, u) == SecondsToStringTime(b, u) ==> a == b
  {
    StringTimeRoundTrip(a, u);
    StringTimeRoundTrip(b, u);
  }
}
