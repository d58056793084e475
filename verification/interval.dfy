/**
 * Reporting intervals: `ParseInterval` turns a phrase such as "yesterday" or
 * "last 3 days" into an inclusive range of days.
 *
 * A day is an integer: the number of days since Thursday 1970-01-01, so that
 * consecutive integers are consecutive calendar days and `AddDate(0, 0, n)`
 * is `+ n`. The current day and the first day of the current year are
 * parameters; the calendar that computes them is not part of this model.
 *
 * Source: internal/app/app.go (`lastDaysPattern`, `ParseInterval`,
 * `StartOfWeek`) and its older copy in main.go.
 */
module Interval {
  import opened Base
  import opened Text

  type Day = int

  /** Go's `time.Weekday` numbering: Sunday is 0, Monday 1, ..., Saturday 6. */
  function Weekday(d: Day): (w: int)
    ensures 0 <= w < 7
    ensures w == 4 <==> d % 7 == 0
  {
    (d + 4) % 7
  }

  /** Weekdays repeat every seven days. */
  lemma WeekdayPeriodic(d: Day, k: int)
    ensures Weekday(d + 7 * k) == Weekday(d)
  {
  }

  const Monday: int := 1

  /**
   * `StartOfWeek`: weeks start on Monday, so step back 6 days from a Sunday
   * and `weekday - 1` days otherwise.
   */
  function StartOfWeek(t: Day): (r: Day)
    ensures Weekday(r) == Monday
    ensures t - 6 <= r <= t
    ensures forall d :: r < d <= t ==> Weekday(d) != Monday
  {
    var w := Weekday(t);
    var back := if w == 0 then 6 else w - 1;
    assert forall d :: t - back <= d <= t ==> Weekday(d) == (w - (t - d) + 7) % 7 by {
      forall d | t - back <= d <= t ensures Weekday(d) == (w - (t - d) + 7) % 7 {
        WeekdayBack(t, t - d);
      }
    }
    t - back
  }

  /** Stepping back `j` days, up to six, steps the weekday back `j` places, modulo seven. */
  lemma WeekdayBack(t: Day, j: int)
    requires 0 <= j <= 6
    ensures Weekday(t - j) == (Weekday(t) - j + 7) % 7
  {
    var q := (t + 4) / 7;
    assert t + 4 == 7 * q + Weekday(t);
    if j <= Weekday(t) {
      assert t - j + 4 == 7 * q + (Weekday(t) - j);
    } else {
      assert t - j + 4 == 7 * (q - 1) + (Weekday(t) - j + 7);
    }
  }

  /** Any Monday 0 to 6 days back is the start of the week. */
  lemma StartOfWeekUnique(t: Day, m: Day)
    requires Weekday(m) == Monday && t - 6 <= m <= t
    ensures m == StartOfWeek(t)
  {
  }

  /** The whitespace class `\s` of Go's regular expressions: `[\t\n\f\r ]`. */
  predicate IsRegexSpace(c: char) {
    c == '\t' || c == '\n' || c == '\U{000C}' || c == '\r' || c == ' '
  }

  /** The length of the longest prefix of `s` whose characters all satisfy `p`. */
  function LeadingRun(s: string, p: char -> bool): (n: nat)
    ensures n <= |s|
    ensures forall i :: 0 <= i < n ==> p(s[i])
    ensures n < |s| ==> !p(s[n])
    decreases |s|
  {
    if |s| == 0 || !p(s[0]) then 0
    else
      var m := LeadingRun(s[1..], p);
      assert forall i :: 1 <= i < m + 1 ==> s[i] == s[1..][i - 1];
      1 + m
  }

  /** A run that is followed by a character outside it is exactly as long as it is. */
  lemma LeadingRunOf(x: string, y: string, p: char -> bool)
    requires forall i :: 0 <= i < |x| ==> p(x[i])
    requires |y| > 0 && !p(y[0])
    ensures LeadingRun(x + y, p) == |x|
    ensures (x + y)[|x|..] == y
  {
    assert forall i :: 0 <= i < |x| ==> (x + y)[i] == x[i];
    assert (x + y)[|x|] == y[0];
  }

  predicate AllRegexSpace(w: string) {
    forall i :: 0 <= i < |w| ==> IsRegexSpace(w[i])
  }

  /** The end of the pattern, `\s+days?$`. */
  ghost predicate DaysSuffixShape(c: string) {
    exists w: string, suffix: string :: c == w + suffix && |w| > 0 && AllRegexSpace(w) && suffix in {"day", "days"}
  }

  /** The pattern after "last", `\s+(\d+)\s+days?$`, with `digits` captured. */
  ghost predicate SpacedCountShape(a: string, digits: string) {
    exists w: string, c: string ::
      a == w + (digits + c) && |w| > 0 && AllRegexSpace(w) && |digits| > 0 && AllDigits(digits) && DaysSuffixShape(c)
  }

  /**
   * `s` matches `^last\s+(\d+)\s+days?$` with `digits` as the captured
   * group: the pattern of "last N days".
   */
  ghost predicate LastDaysShape(s: string, digits: string) {
    |s| >= 4 && s[..4] == "last" && SpacedCountShape(s[4..], digits)
  }

  /** `\s+days?$`. */
  function IsDaysSuffix(c: string): bool {
    var n := LeadingRun(c, IsRegexSpace);
    n > 0 && c[n..] in {"day", "days"}
  }

  /** `(\d+)\s+days?$`: the captured digits. */
  function MatchCount(b: string): Option<string> {
    var n := LeadingRun(b, IsDigit);
    if n > 0 && IsDaysSuffix(b[n..]) then Some(b[..n]) else None
  }

  /** `\s+(\d+)\s+days?$`: the captured digits. */
  function MatchSpacedCount(a: string): Option<string> {
    var n := LeadingRun(a, IsRegexSpace);
    if n > 0 then MatchCount(a[n..]) else None
  }

  /** `lastDaysPattern.FindStringSubmatch`: the captured digits, when the whole input matches. */
  function MatchLastDays(s: string): (r: Option<string>)
    ensures r.Some? ==> LastDaysShape(s, r.value)
  {
    if |s| >= 4 && s[..4] == "last" then
      var r := MatchSpacedCount(s[4..]);
      if r.Some? then MatchSpacedCountSound(s[4..]); r else r
    else None
  }

  lemma IsDaysSuffixSound(c: string)
    requires IsDaysSuffix(c)
    ensures DaysSuffixShape(c)
  {
    var n := LeadingRun(c, IsRegexSpace);
    assert c == c[..n] + c[n..];
  }

  lemma MatchCountSound(b: string)
    requires MatchCount(b).Some?
    ensures exists c :: b == MatchCount(b).value + c && DaysSuffixShape(c)
    ensures |MatchCount(b).value| > 0 && AllDigits(MatchCount(b).value)
  {
    var n := LeadingRun(b, IsDigit);
    IsDaysSuffixSound(b[n..]);
    assert b == b[..n] + b[n..];
  }

  lemma MatchSpacedCountSound(a: string)
    requires MatchSpacedCount(a).Some?
    ensures SpacedCountShape(a, MatchSpacedCount(a).value)
  {
    var n := LeadingRun(a, IsRegexSpace);
    var w, b := a[..n], a[n..];
    assert MatchSpacedCount(a) == MatchCount(b);
    MatchCountSound(b);
    var digits := MatchCount(b).value;
    var c :| b == digits + c && DaysSuffixShape(c);
    assert a == w + (digits + c) && |w| > 0 && AllRegexSpace(w);
  }

  lemma IsDaysSuffixComplete(c: string)
    requires DaysSuffixShape(c)
    ensures IsDaysSuffix(c)
  {
    var w: string, suffix: string :| c == w + suffix && |w| > 0 && AllRegexSpace(w) && suffix in {"day", "days"};
    assert suffix[0] == 'd';
    LeadingRunOf(w, suffix, IsRegexSpace);
  }

  lemma MatchCountComplete(digits: string, c: string)
    requires |digits| > 0 && AllDigits(digits) && DaysSuffixShape(c)
    ensures MatchCount(digits + c) == Some(digits)
  {
    var w: string, suffix: string :| c == w + suffix && |w| > 0 && AllRegexSpace(w) && suffix in {"day", "days"};
    assert c[0] == w[0];
    LeadingRunOf(digits, c, IsDigit);
    IsDaysSuffixComplete(c);
    assert (digits + c)[..|digits|] == digits;
  }

  lemma MatchSpacedCountComplete(a: string, digits: string)
    requires SpacedCountShape(a, digits)
    ensures MatchSpacedCount(a) == Some(digits)
  {
    var w: string, c: string :|
      a == w + (digits + c) && |w| > 0 && AllRegexSpace(w) && |digits| > 0 && AllDigits(digits) && DaysSuffixShape(c);
    assert (digits + c)[0] == digits[0];
    LeadingRunOf(w, digits + c, IsRegexSpace);
    MatchCountComplete(digits, c);
  }

  /** The match finds every input of the pattern's shape, with its digits. */
  lemma MatchLastDaysComplete(s: string, digits: string)
    requires LastDaysShape(s, digits)
    ensures MatchLastDays(s) == Some(digits)
  {
    MatchSpacedCountComplete(s[4..], digits);
  }

  /** Why a phrase was rejected. */
  datatype IntervalError = InvalidDayCount | Unsupported

  /** An inclusive range of days, or the reason there is none. */
  datatype IntervalResult = Range(start: Day, end: Day) | Failed(reason: IntervalError)

  /** The phrase, trimmed and lower-cased, as the parser sees it. */
  function Normal(raw: string): string {
    ToLower(TrimSpace(raw))
  }

  /** The phrases looked up literally, before the "last N days" pattern is tried. */
  const FixedPhrases: set<string> := {"", "today", "yesterday", "last week", "this week", "this year"}

  /** The count of "last N days": a positive `int`, else an invalid count. */
  function DaysBack(digits: string, now: Day): (r: IntervalResult)
    ensures r.Range? ==> r.start <= r.end == now
  {
    match Atoi(digits)
    case None => Failed(InvalidDayCount)
    case Some(days) =>
      if days <= 0 then Failed(InvalidDayCount) else Range(now - (days - 1), now)
  }

  /** The lookup on a normalized phrase. */
  function Lookup(input: string, now: Day, yearStart: Day): (r: IntervalResult)
    requires yearStart <= now
    ensures r.Range? ==> r.start <= r.end <= now
  {
    if input == "" || input == "today" then Range(now, now)
    else if input == "yesterday" then Range(now - 1, now - 1)
    else if input == "last week" then
      var end := StartOfWeek(now) - 1;
      Range(end - 6, end)
    else if input == "this week" then Range(StartOfWeek(now), now)
    else if input == "this year" then Range(yearStart, now)
    else
      match MatchLastDays(input)
      case None => Failed(Unsupported)
      case Some(digits) => DaysBack(digits, now)
  }

  /**
   * `ParseInterval` (and `parseInterval`): trim, lower-case, then look the
   * phrase up. "N" of "last N days" must be a positive `int`; a count that
   * does not fit in 64 bits is an invalid count too. `yearStart` is January 1
   * of the current year. Every range it returns is non-empty and ends no
   * later than today, on the model's unbounded line of days; Go's calendar
   * has a finite range, which this model does not bound.
   */
  function ParseInterval(raw: string, now: Day, yearStart: Day): (r: IntervalResult)
    requires yearStart <= now
    ensures r.Range? ==> r.start <= r.end <= now
  {
    Lookup(Normal(raw), now, yearStart)
  }

  /** The fixed phrases and the ranges they name. */
  lemma ParseIntervalTable(raw: string, now: Day, yearStart: Day)
    requires yearStart <= now
    ensures Normal(raw) in {"", "today"} ==> ParseInterval(raw, now, yearStart) == Range(now, now)
    ensures Normal(raw) == "yesterday" ==> ParseInterval(raw, now, yearStart) == Range(now - 1, now - 1)
    ensures Normal(raw) == "this week" ==> ParseInterval(raw, now, yearStart) == Range(StartOfWeek(now), now)
    ensures Normal(raw) == "this year" ==> ParseInterval(raw, now, yearStart) == Range(yearStart, now)
  {
  }

  /** "last week" is the seven days Monday to Sunday before the current week. */
  lemma LastWeekIsPreviousWeek(raw: string, now: Day, yearStart: Day)
    requires yearStart <= now && Normal(raw) == "last week"
    ensures var r := ParseInterval(raw, now, yearStart);
      && r.Range? && r.end - r.start == 6
      && Weekday(r.start) == Monday
      && r.end + 1 == StartOfWeek(now)
  {
    var s := StartOfWeek(now);
    WeekdayPeriodic(s - 7, 1);
  }

  /**
   * "last N days": for a positive N within `int` range the range holds the
   * N days ending today, counted on the model's unbounded line of days;
   * zero and counts beyond 64 bits are invalid counts.
   */
  lemma LastDaysInterval(raw: string, now: Day, yearStart: Day, digits: string)
    requires yearStart <= now
    requires LastDaysShape(Normal(raw), digits)
    ensures var r := ParseInterval(raw, now, yearStart);
      && (0 < DigitsValue(digits) <= MaxInt64 ==> r == Range(now - DigitsValue(digits) + 1, now))
      && (DigitsValue(digits) == 0 || DigitsValue(digits) > MaxInt64 ==> r == Failed(InvalidDayCount))
  {
    var input := Normal(raw);
    MatchLastDaysComplete(input, digits);
    NotFixedPhrase(input, digits);
    LookupOtherPhrase(input, now, yearStart);
    DaysBackOfDigits(digits, now);
  }

  /** `DaysBack` on a run of digits, in terms of the number they spell. */
  lemma DaysBackOfDigits(digits: string, now: Day)
    requires |digits| > 0 && AllDigits(digits)
    ensures 0 < DigitsValue(digits) <= MaxInt64 ==> DaysBack(digits, now) == Range(now - DigitsValue(digits) + 1, now)
    ensures DigitsValue(digits) == 0 || DigitsValue(digits) > MaxInt64 ==> DaysBack(digits, now) == Failed(InvalidDayCount)
  {
    assert IsDigit(digits[0]);
  }

  /** No input of the "last N days" shape is one of the fixed phrases. */
  lemma NotFixedPhrase(s: string, digits: string)
    requires LastDaysShape(s, digits)
    ensures s !in FixedPhrases
  {
    var w: string, c: string :|
      s[4..] == w + (digits + c) && |w| > 0 && AllRegexSpace(w) && |digits| > 0 && AllDigits(digits) && DaysSuffixShape(c);
    assert s[4] == w[0];
  }

  /** Everything else is unsupported. */
  lemma UnsupportedOtherwise(raw: string, now: Day, yearStart: Day)
    requires yearStart <= now
    requires Normal(raw) !in FixedPhrases
    requires forall digits :: !LastDaysShape(Normal(raw), digits)
    ensures ParseInterval(raw, now, yearStart) == Failed(Unsupported)
  {
    var input := Normal(raw);
    assert MatchLastDays(input).None?;
    LookupOtherPhrase(input, now, yearStart);
  }

  /** Past the fixed phrases, only the "last N days" pattern is left. */
  lemma LookupOtherPhrase(input: string, now: Day, yearStart: Day)
    requires yearStart <= now
    requires input !in FixedPhrases
    ensures MatchLastDays(input).None? ==> Lookup(input, now, yearStart) == Failed(Unsupported)
    ensures MatchLastDays(input).Some? ==> Lookup(input, now, yearStart) == DaysBack(MatchLastDays(input).value, now)
  {
    assert input != "" && input != "today" && input != "yesterday";
    assert input != "last week" && input != "this week" && input != "this year";
  }

  /** Case and surrounding whitespace do not matter. */
  lemma ParseIntervalNormalized(raw: string, now: Day, yearStart: Day)
    requires yearStart <= now
    ensures ParseInterval(Normal(raw), now, yearStart) == ParseInterval(raw, now, yearStart)
  {
    var t := TrimSpace(raw);
    ToLowerTrimmed(t);
    assert TrimSpace(ToLower(t)) == ToLower(t);
    ToLowerIdempotent(t);
  }
}
