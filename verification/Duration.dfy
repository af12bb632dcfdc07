/**
 ISO 8601 periods as the interpreter reads them: weeks alone, or days followed by an optional time of hours, minutes
 and seconds, turned into nanoseconds in a signed 64-bit integer.
 */
module Duration {
  import opened Int64s
  import opened Wrappers

  predicate IsDigit(c: char) {
    '0' <= c <= '9'
  }

  lemma TenDigits(c: char)
    ensures IsDigit(c) <==> c in "0123456789"
  {
    var digits := "0123456789";
    assert forall i | 0 <= i < 10 :: digits[i] == ('0' as int + i) as char;
    if IsDigit(c) {
      assert digits[c as int - '0' as int] == c;
    }
  }

  predicate AllDigits(s: string) {
    forall c | c in s :: IsDigit(c)
  }

  /** The five groups of a match, each empty when the period leaves it out. */
  datatype Groups = Groups(weeks: string, days: string, hours: string, minutes: string, seconds: string)

  predicate DigitGroups(g: Groups) {
    AllDigits(g.weeks) && AllDigits(g.days) && AllDigits(g.hours) && AllDigits(g.minutes) && AllDigits(g.seconds)
  }

  // ----- what a period looks like -----

  function Written(digits: string, designator: char): string {
    if digits == "" then "" else digits + [designator]
  }

  function TimePart(g: Groups): string {
    Written(g.hours, 'H') + (Written(g.minutes, 'M') + Written(g.seconds, 'S'))
  }

  predicate IsWeeks(s: string, g: Groups) {
    DigitGroups(g) && g == Groups(g.weeks, "", "", "", "") && g.weeks != "" && s == "P" + Written(g.weeks, 'W')
  }

  predicate IsDays(s: string, g: Groups) {
    DigitGroups(g) && g == Groups("", g.days, "", "", "") && s == "P" + Written(g.days, 'D')
  }

  /** The time designator may stand alone. */
  predicate IsDaysAndTime(s: string, g: Groups) {
    DigitGroups(g) && g.weeks == "" && s == "P" + (Written(g.days, 'D') + ("T" + TimePart(g)))
  }

  predicate IsPeriod(s: string, g: Groups) {
    IsWeeks(s, g) || IsDays(s, g) || IsDaysAndTime(s, g)
  }

  // ----- matching from left to right -----

  function DigitRun(s: string): (n: nat)
    ensures n <= |s| && AllDigits(s[..n]) && (n < |s| ==> !IsDigit(s[n]))
  {
    if s == "" || !IsDigit(s[0]) then 0
    else
      var n := 1 + DigitRun(s[1..]);
      assert s[..n] == [s[0]] + s[1..][..n-1];
      n
  }

  /** An optional group of digits before a designator, and what follows it. */
  function Component(s: string, designator: char): (string, string) {
    var n := DigitRun(s);
    if 0 < n < |s| && s[n] == designator then (s[..n], s[n+1..]) else ("", s)
  }

  function MatchTime(s: string, days: string): Option<Groups> {
    var (hours, s1) := Component(s, 'H');
    var (minutes, s2) := Component(s1, 'M');
    var (seconds, s3) := Component(s2, 'S');
    if s3 == "" then Some(Groups("", days, hours, minutes, seconds)) else None
  }

  function MatchPeriod(s: string): Option<Groups> {
    if s == "" || s[0] != 'P' then None
    else
      var (weeks, afterWeeks) := Component(s[1..], 'W');
      if weeks != "" && afterWeeks == "" then Some(Groups(weeks, "", "", "", ""))
      else
        var (days, rest) := Component(s[1..], 'D');
        if rest == "" then Some(Groups("", days, "", "", ""))
        else if rest[0] == 'T' then MatchTime(rest[1..], days)
        else None
  }

  /** A run of digits stops at the designator that follows it. */
  lemma {:induction false} DigitRunOf(digits: string, rest: string)
    requires AllDigits(digits) && (rest == "" || !IsDigit(rest[0]))
    ensures DigitRun(digits + rest) == |digits|
  {
    if digits == "" {
      assert digits + rest == rest;
    } else {
      DigitRunOf(digits[1..], rest);
      assert (digits + rest)[1..] == digits[1..] + rest;
    }
  }

  lemma ComponentSplits(s: string, designator: char)
    ensures var (digits, rest) := Component(s, designator); AllDigits(digits) && s == Written(digits, designator) + rest
  {
  }

  lemma ComponentPresent(digits: string, designator: char, rest: string)
    requires digits != "" && AllDigits(digits) && !IsDigit(designator)
    ensures Component(Written(digits, designator) + rest, designator) == (digits, rest)
  {
    var s := Written(digits, designator) + rest;
    assert s == digits + ([designator] + rest);
    DigitRunOf(digits, [designator] + rest);
  }

  /** A group is absent when what comes is another group, or no digits at all. */
  lemma ComponentAbsent(s: string, designator: char, digits: string, other: char, rest: string)
    requires s == Written(digits, other) + rest && AllDigits(digits) && !IsDigit(other) && other != designator
    requires digits == "" ==> rest == "" || !IsDigit(rest[0])
    ensures Component(s, designator) == ("", s)
  {
    if digits == "" {
      DigitRunOf("", rest);
      assert s == "" + rest;
    } else {
      assert s == digits + ([other] + rest);
      DigitRunOf(digits, [other] + rest);
    }
  }

  /** The component a designator marks is found whether it is there or not, as long as what follows starts otherwise. */
  lemma ComponentFound(digits: string, designator: char, rest: string)
    requires AllDigits(digits) && !IsDigit(designator)
    requires digits == "" ==> Component(rest, designator) == ("", rest)
    ensures Component(Written(digits, designator) + rest, designator) == (digits, rest)
  {
    if digits == "" {
      assert Written(digits, designator) + rest == rest;
    } else {
      ComponentPresent(digits, designator, rest);
    }
  }

  lemma SecondsMissOthers(digits: string, designator: char)
    requires AllDigits(digits) && (designator == 'H' || designator == 'M')
    ensures Component(Written(digits, 'S'), designator) == ("", Written(digits, 'S'))
  {
    assert Written(digits, 'S') == Written(digits, 'S') + "";
    ComponentAbsent(Written(digits, 'S'), designator, digits, 'S', "");
  }

  lemma MinutesMissHours(minutes: string, seconds: string)
    requires AllDigits(minutes) && AllDigits(seconds)
    ensures Component(Written(minutes, 'M') + Written(seconds, 'S'), 'H') == ("", Written(minutes, 'M') + Written(seconds, 'S'))
  {
    if minutes == "" {
      assert Written(minutes, 'M') + Written(seconds, 'S') == Written(seconds, 'S');
      SecondsMissOthers(seconds, 'H');
    } else {
      ComponentAbsent(Written(minutes, 'M') + Written(seconds, 'S'), 'H', minutes, 'M', Written(seconds, 'S'));
    }
  }

  lemma MatchTimeAccepts(g: Groups)
    requires DigitGroups(g) && g.weeks == ""
    ensures MatchTime(TimePart(g), g.days) == Some(g)
  {
    var seconds := Written(g.seconds, 'S');
    var minutes := Written(g.minutes, 'M') + seconds;
    MinutesMissHours(g.minutes, g.seconds);
    ComponentFound(g.hours, 'H', minutes);
    SecondsMissOthers(g.seconds, 'M');
    ComponentFound(g.minutes, 'M', seconds);
    assert seconds + "" == seconds;
    ComponentFound(g.seconds, 'S', "");
  }

  lemma MatchTimeSplits(s: string, days: string)
    requires MatchTime(s, days).Some? && AllDigits(days)
    ensures var g := MatchTime(s, days).value; DigitGroups(g) && g.weeks == "" && g.days == days && s == TimePart(g)
  {
    var (hours, s1) := Component(s, 'H');
    var (minutes, s2) := Component(s1, 'M');
    var (seconds, s3) := Component(s2, 'S');
    ComponentSplits(s, 'H');
    ComponentSplits(s1, 'M');
    ComponentSplits(s2, 'S');
    assert s2 == Written(seconds, 'S') + "" == Written(seconds, 'S');
  }

  lemma MatchedWeeks(s: string, body: string, weeks: string)
    requires s == "P" + body && Component(body, 'W') == (weeks, "") && weeks != ""
    ensures IsWeeks(s, Groups(weeks, "", "", "", ""))
  {
    ComponentSplits(body, 'W');
    assert body == Written(weeks, 'W');
  }

  lemma MatchedDays(s: string, body: string, days: string)
    requires s == "P" + body && Component(body, 'D') == (days, "")
    ensures IsDays(s, Groups("", days, "", "", ""))
  {
    ComponentSplits(body, 'D');
    assert body == Written(days, 'D');
  }

  lemma MatchedDaysAndTime(s: string, body: string, days: string, time: string, g: Groups)
    requires s == "P" + body && Component(body, 'D') == (days, "T" + time) && MatchTime(time, days) == Some(g)
    ensures IsDaysAndTime(s, g)
  {
    ComponentSplits(body, 'D');
    MatchTimeSplits(time, days);
  }

  lemma HeadAndTail(s: string, c: char)
    requires s != "" && s[0] == c
    ensures s == [c] + s[1..]
  {
  }

  lemma MatchedIsAPeriod(s: string, g: Groups)
    requires MatchPeriod(s) == Some(g)
    ensures IsPeriod(s, g)
  {
    var body := s[1..];
    HeadAndTail(s, 'P');
    var (weeks, afterWeeks) := Component(body, 'W');
    var (days, rest) := Component(body, 'D');
    if weeks != "" && afterWeeks == "" {
      MatchedWeeks(s, body, weeks);
    } else if rest == "" {
      MatchedDays(s, body, days);
    } else {
      HeadAndTail(rest, 'T');
      MatchedDaysAndTime(s, body, days, rest[1..], g);
    }
  }

  lemma WeeksMatch(s: string, g: Groups)
    requires IsWeeks(s, g)
    ensures MatchPeriod(s) == Some(g)
  {
    assert s[1..] == Written(g.weeks, 'W') + "";
    ComponentFound(g.weeks, 'W', "");
  }

  /** After the period designator: the days, then nothing or a time. */
  lemma DaysFound(s: string, days: string, tail: string)
    requires AllDigits(days) && s == "P" + (Written(days, 'D') + tail) && (tail == "" || tail[0] == 'T')
    ensures s[1..] == Written(days, 'D') + tail
    ensures Component(s[1..], 'W') == ("", s[1..]) && Component(s[1..], 'D') == (days, tail)
  {
    assert s[1..] == Written(days, 'D') + tail;
    ComponentAbsent(s[1..], 'W', days, 'D', tail);
    ComponentFound(days, 'D', tail);
  }

  lemma PeriodMatches(s: string, g: Groups)
    requires IsPeriod(s, g)
    ensures MatchPeriod(s) == Some(g)
  {
    if IsWeeks(s, g) {
      WeeksMatch(s, g);
    } else if IsDays(s, g) {
      assert Written(g.days, 'D') + "" == Written(g.days, 'D');
      DaysFound(s, g.days, "");
    } else {
      var tail := "T" + TimePart(g);
      DaysFound(s, g.days, tail);
      MatchTimeAccepts(g);
      assert tail[1..] == TimePart(g);
    }
  }

  /** The left-to-right matcher accepts exactly the periods, each with the one way there is to read it. */
  lemma MatchesExactlyPeriods(s: string, g: Groups)
    ensures MatchPeriod(s) == Some(g) <==> IsPeriod(s, g)
  {
    if MatchPeriod(s) == Some(g) {
      MatchedIsAPeriod(s, g);
    }
    if IsPeriod(s, g) {
      PeriodMatches(s, g);
    }
  }

  // ----- adding up -----

  function Value(digits: string): nat
    requires AllDigits(digits)
  {
    if digits == "" then 0
    else
      assert IsDigit(digits[|digits|-1]);
      10 * Value(digits[..|digits|-1]) + (digits[|digits|-1] - '0') as nat
  }

  function Pow10(k: nat): nat {
    if k == 0 then 1 else 10 * Pow10(k - 1)
  }

  lemma ValueOfTheLastDigit(digits: string)
    requires AllDigits(digits) && |digits| > 1
    ensures AllDigits(digits[1..]) && AllDigits(digits[..|digits|-1]) && digits[..|digits|-1][1..] == digits[1..][..|digits|-2]
    ensures IsDigit(digits[|digits|-1])
    ensures Value(digits) == 10 * Value(digits[..|digits|-1]) + (digits[|digits|-1] - '0') as nat
    ensures Value(digits[1..]) == 10 * Value(digits[1..][..|digits|-2]) + (digits[|digits|-1] - '0') as nat
  {
    assert digits[|digits|-1] in digits && digits[1..][|digits|-2] == digits[|digits|-1];
  }

  lemma TenTimes(d: nat, p: nat, rest: nat)
    ensures 10 * (d * p + rest) == d * (10 * p) + 10 * rest
  {
  }

  /** Read from the left, each digit counts for its power of ten. */
  lemma {:induction false} ValueOfTheFirstDigit(digits: string)
    requires AllDigits(digits) && digits != ""
    ensures IsDigit(digits[0])
    ensures Value(digits) == (digits[0] - '0') as nat * Pow10(|digits| - 1) + Value(digits[1..])
  {
    assert digits[0] in digits;
    if |digits| == 1 {
      assert digits[..0] == "" && digits[1..] == "" && Pow10(0) == 1;
    } else {
      var init := digits[..|digits|-1];
      ValueOfTheLastDigit(digits);
      ValueOfTheFirstDigit(init);
      TenTimes((digits[0] - '0') as nat, Pow10(|digits| - 2), Value(init[1..]));
    }
  }

  /** The parse of a decimal into 64 bits: an error when it does not fit. */
  function ParseInt(digits: string): Option<Int64>
    requires AllDigits(digits)
  {
    if Value(digits) <= MAX_INT64 then Some(Value(digits) as Int64) else None
  }

  /** The groups in the order of their units. */
  function Group(g: Groups, i: nat): string
    requires i < 5
  {
    if i == 0 then g.weeks else if i == 1 then g.days else if i == 2 then g.hours else if i == 3 then g.minutes else g.seconds
  }

  function Unit(i: nat): (unit: nat)
    requires i < 5
    ensures 0 < unit <= MAX_INT64
  {
    if i == 0 then WEEK else if i == 1 then DAY else if i == 2 then HOUR else if i == 3 then MINUTE else SECOND
  }

  /** The exact sum of the first n components, in integers without bound. */
  function Sum(g: Groups, n: nat): nat
    requires n <= 5 && DigitGroups(g)
  {
    if n == 0 then 0 else Sum(g, n - 1) + Value(Group(g, n - 1)) * Unit(n - 1)
  }

  datatype Parsed = NotAPeriod | NoLength | TooLong | Length(nanoseconds: Int64)

  lemma {:induction false} SumGrows(g: Groups, m: nat, n: nat)
    requires m <= n <= 5 && DigitGroups(g)
    ensures Sum(g, m) <= Sum(g, n)
  {
    if m < n {
      SumGrows(g, m, n - 1);
    }
  }

  lemma QuotientBounds(n: nat, unit: nat)
    requires 0 < unit
    ensures n <= MAX_INT64 / unit <==> n * unit <= MAX_INT64
  {
    if n <= MAX_INT64 / unit {
      assert n * unit <= (MAX_INT64 / unit) * unit;
    } else {
      assert (MAX_INT64 / unit + 1) * unit <= n * unit;
    }
  }

  /** One round of the loop: the component's product, added to the total unless either step would leave 64 bits. */
  method AddComponent(total: Int64, digits: string, unit: Int64) returns (sum: Option<Int64>)
    requires AllDigits(digits) && 0 < unit && 0 <= total
    ensures sum.Some? <==> total as int + Value(digits) * unit as int <= MAX_INT64
    ensures sum.Some? ==> sum.value as int == total as int + Value(digits) * unit as int
  {
    QuotientBounds(Value(digits), unit as nat);
    var n := ParseInt(digits);
    if n.None? {
      ProductAtLeast(Value(digits), unit as nat);
      return None;
    }
    if n.value > MAX_INT64 as Int64 / unit {
      return None;
    }
    assert n.value as int * unit as int <= MAX_INT64;
    if total > MAX_INT64 as Int64 - n.value * unit {
      return None;
    }
    return Some(total + n.value * unit);
  }

  lemma ProductAtLeast(n: nat, unit: nat)
    requires 0 < unit
    ensures n <= n * unit
  {
  }

  /** What a reading of the groups comes to: nothing said, the exact sum, or more than 64 bits. */
  function LengthOf(g: Groups): Parsed
    requires DigitGroups(g)
  {
    if g == Groups("", "", "", "", "") then NoLength
    else if Sum(g, 5) <= MAX_INT64 then Length(Sum(g, 5) as Int64)
    else TooLong
  }

  /** The length of a period, in nanoseconds written out. */
  lemma LengthInNanoseconds(g: Groups)
    requires DigitGroups(g)
    ensures var total :=
              Value(g.weeks) * 604_800_000_000_000 + Value(g.days) * 86_400_000_000_000 + Value(g.hours) * 3_600_000_000_000
              + Value(g.minutes) * 60_000_000_000 + Value(g.seconds) * 1_000_000_000;
      LengthOf(g) ==
        if g.weeks == "" && g.days == "" && g.hours == "" && g.minutes == "" && g.seconds == "" then NoLength
        else if total <= 0x7FFF_FFFF_FFFF_FFFF then Length(total as Int64)
        else TooLong
  {
    SumWrittenOut(g);
  }

  lemma SumWrittenOut(g: Groups)
    requires DigitGroups(g)
    ensures Sum(g, 5) ==
              Value(g.weeks) * 604_800_000_000_000 + Value(g.days) * 86_400_000_000_000 + Value(g.hours) * 3_600_000_000_000
              + Value(g.minutes) * 60_000_000_000 + Value(g.seconds) * 1_000_000_000
  {
    assert Sum(g, 0) == 0;
    assert Sum(g, 1) == Value(g.weeks) * WEEK;
    assert Sum(g, 2) == Sum(g, 1) + Value(g.days) * DAY;
    assert Sum(g, 3) == Sum(g, 2) + Value(g.hours) * HOUR;
    assert Sum(g, 4) == Sum(g, 3) + Value(g.minutes) * MINUTE;
    assert Sum(g, 5) == Sum(g, 4) + Value(g.seconds) * SECOND;
  }

  method AddUp(g: Groups) returns (r: Parsed)
    requires DigitGroups(g)
    ensures r == LengthOf(g)
  {
    var total: Int64, seen := 0, false;
    var i := 0;
    while i < 5
      invariant 0 <= i <= 5 && total as int == Sum(g, i)
      invariant seen <==> exists j | 0 <= j < i :: Group(g, j) != ""
    {
      if Group(g, i) != "" {
        seen := true;
        var sum := AddComponent(total, Group(g, i), Unit(i) as Int64);
        if sum.None? {
          SumGrows(g, i + 1, 5);
          return TooLong;
        }
        total := sum.value;
      }
      i := i + 1;
    }
    if !seen {
      assert Group(g, 0) == Group(g, 1) == Group(g, 2) == Group(g, 3) == Group(g, 4) == "";
      return NoLength;
    }
    return Length(total);
  }

  /** The exact length whenever it fits in 64 bits, and otherwise an error; no step on the way overflows. */
  method ParseISODuration(s: string) returns (r: Parsed)
    ensures r == NotAPeriod <==> forall g :: !IsPeriod(s, g)
    ensures forall g | IsPeriod(s, g) :: r == LengthOf(g)
  {
    forall g ensures MatchPeriod(s) == Some(g) <==> IsPeriod(s, g) {
      MatchesExactlyPeriods(s, g);
    }
    var found := MatchPeriod(s);
    if found.None? {
      return NotAPeriod;
    }
    assert IsPeriod(s, found.value);
    r := AddUp(found.value);
  }
}
