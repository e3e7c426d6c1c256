/**
 * `formatDuration` of src/app/api/youtube/route.ts: the time part of an
 * ISO 8601 duration in the designator format (section 4.4.3.2 of
 * ISO 8601:2004), as the regular expression `PT(\d+H)?(\d+M)?(\d+S)?`
 * reads it, rendered as `H:MM:SS` or `M:SS`.
 */
module Duration {
  import opened Wrappers
  import opened Strings

  /** The leftmost index at or after `i` where "PT" starts. */
  function FindDesignatorFrom(s: string, i: nat): (r: Option<nat>)
    requires i <= |s|
    decreases |s| - i
    ensures r.Some? ==> i <= r.value && MatchAt(s, "PT", r.value)
    ensures r.Some? ==> forall j :: i <= j < r.value ==> !MatchAt(s, "PT", j)
    ensures r.None? ==> forall j :: i <= j ==> !MatchAt(s, "PT", j)
  {
    if i + 2 > |s| then None
    else if s[i..i + 2] == "PT" then Some(i)
    else FindDesignatorFrom(s, i + 1)
  }

  /**
   * Where the unanchored regular expression matches: every group after
   * "PT" is optional, so it matches at the leftmost "PT" there is.
   */
  function FindDesignator(s: string): (r: Option<nat>)
    ensures r.Some? <==> Contains(s, "PT")
    ensures r.Some? ==> MatchAt(s, "PT", r.value)
    ensures r.Some? ==> forall j :: 0 <= j < r.value ==> !MatchAt(s, "PT", j)
  {
    FindDesignatorFrom(s, 0)
  }

  /** The longest run of decimal digits at the start of `s` (`\d+`, greedy). */
  function LeadingDigits(s: string): (r: string)
    ensures |r| <= |s| && r == s[..|r|] && AllDigits(r)
    ensures |r| < |s| ==> !IsDigit(s[|r|])
  {
    if |s| > 0 && IsDigit(s[0]) then [s[0]] + LeadingDigits(s[1..]) else ""
  }

  /** What one optional group `(\d+U)?` consumed: its number (0 if absent) and the rest. */
  datatype Component = Component(value: nat, rest: string)

  /**
   * The group `(\d+U)?` at the start of `s`. Backtracking into `\d+` cannot
   * help, since a shorter run is followed by a digit and not by `unit`; so
   * the group takes part exactly when the longest digit run is followed by
   * `unit`. An absent group reads as 0, as `match[k] ? parseInt(..) : 0` does.
   */
  function TakeComponent(s: string, unit: char): (c: Component)
    ensures (|s| == 0 || !IsDigit(s[0])) ==> c == Component(0, s)
    ensures c.rest == s ==> c.value == 0
    ensures c.rest != s ==> && |c.rest| < |s| && s[|s| - |c.rest| - 1] == unit
                            && c.rest == s[|s| - |c.rest|..]
                            && var digits := s[..|s| - |c.rest| - 1];
                               |digits| > 0 && AllDigits(digits) && c.value == ParseDigits(digits)
    ensures !IsDigit(unit) ==> (c.rest != s <==> exists k :: 0 < k < |s| && AllDigits(s[..k]) && s[k] == unit)
  {
    RunBeforeUnit(s, unit);
    var d := LeadingDigits(s);
    if 0 < |d| < |s| && s[|d|] == unit then Component(ParseDigits(d), s[|d| + 1..])
    else Component(0, s)
  }

  /** A non-empty digit run ends right before `unit` exactly when the longest one does. */
  lemma RunBeforeUnit(s: string, unit: char)
    ensures !IsDigit(unit) ==>
      ((exists k :: 0 < k < |s| && AllDigits(s[..k]) && s[k] == unit)
       <==> (var d := LeadingDigits(s); 0 < |d| < |s| && s[|d|] == unit))
  {
    var d := LeadingDigits(s);
    if k :| 0 < k < |s| && AllDigits(s[..k]) && s[k] == unit {
      if |d| > k {
        assert d[k] == s[k];
      }
    }
    if 0 < |d| < |s| && s[|d|] == unit {
      assert s[..|d|] == d;
    }
  }

  /** `String(n)`, and `padStart(2, '0')` on the minutes and seconds. */
  function FormatClock(hours: nat, minutes: nat, seconds: nat): (r: string)
    ensures var sec := PadStart2(NatToString(seconds));
      |sec| < |r| && r[|r| - |sec|..] == sec && r[|r| - |sec| - 1] == ':'
  {
    if hours > 0 then
      NatToString(hours) + ":" + PadStart2(NatToString(minutes)) + ":" + PadStart2(NatToString(seconds))
    else
      NatToString(minutes) + ":" + PadStart2(NatToString(seconds))
  }

  /** Two or three colon-separated fields, each a non-empty run of digits. */
  predicate IsClockText(t: string)
  {
    var f := Split(t, ':');
    (|f| == 2 || |f| == 3) && forall i :: 0 <= i < |f| ==> |f[i]| > 0 && AllDigits(f[i])
  }

  /** The three groups after "PT", read in order. */
  function ReadTime(time: string): (r: string)
    ensures IsClockText(r)
  {
    var h := TakeComponent(time, 'H');
    var m := TakeComponent(h.rest, 'M');
    var s := TakeComponent(m.rest, 'S');
    ClockShape(h.value, m.value, s.value);
    FormatClock(h.value, m.value, s.value)
  }

  /**
   * `formatDuration(duration)`: whatever the input, the result is a clock
   * text, and "0:00" when the input holds no "PT".
   */
  function FormatDuration(duration: string): (r: string)
    ensures IsClockText(r)
    ensures !Contains(duration, "PT") ==> r == "0:00"
  {
    match FindDesignator(duration)
    case None =>
      ClockShape(0, 0, 0);
      assert FormatClock(0, 0, 0) == "0:00";
      "0:00"
    case Some(i) => ReadTime(duration[i + 2..])
  }

  // ---------------------------------------------------------------------
  // Properties

  /** Without "PT" anywhere the regular expression fails and the result is "0:00". */
  lemma NoDesignatorIsZero(duration: string)
    requires !Contains(duration, "PT")
    ensures FormatDuration(duration) == "0:00"
  {
  }

  lemma DigitsHaveNoColon(a: string)
    requires AllDigits(a)
    ensures ':' !in a
  {
    forall i | 0 <= i < |a|
      ensures a[i] != ':'
    {
      assert IsDigit(a[i]);
    }
  }

  /**
   * The clock text splits at ':' into two fields (no hours) or three
   * (hours > 0). Every field is a non-empty digit string; the first has no
   * leading zero; every later field has at least two digits, exactly two
   * when its value is below 100, and no leading zero when it has more; and
   * the fields read back as the numbers.
   */
  lemma ClockShape(hours: nat, minutes: nat, seconds: nat)
    ensures ClockFields(Split(FormatClock(hours, minutes, seconds), ':'), hours, minutes, seconds)
  {
    var f := Split(FormatClock(hours, minutes, seconds), ':');
    if hours > 0 {
      HoursFields(hours, minutes, seconds);
    } else {
      MinutesFields(minutes, seconds);
    }
    assert f == ClockFieldList(hours, minutes, seconds);
    FieldFacts(hours, minutes, seconds);
  }

  /**
   * The fields `f` of a clock text for `hours`, `minutes` and `seconds`: two
   * without hours and three with hours, each a non-empty digit string, the
   * first without a leading zero, the later ones at least two digits wide
   * (exactly two below 100) and without a leading zero when wider, each
   * reading back as its number.
   */
  predicate ClockFields(f: seq<string>, hours: nat, minutes: nat, seconds: nat)
  {
    && |f| == (if hours > 0 then 3 else 2)
    && (forall i :: 0 <= i < |f| ==> |f[i]| > 0 && AllDigits(f[i]))
    && (|f[0]| > 1 ==> f[0][0] != '0')
    && (forall i :: 1 <= i < |f| ==> |f[i]| >= 2 && (|f[i]| > 2 ==> f[i][0] != '0'))
    && ParseDigits(f[|f| - 1]) == seconds && (seconds < 100 ==> |f[|f| - 1]| == 2)
    && (hours > 0 ==> ParseDigits(f[0]) == hours && ParseDigits(f[1]) == minutes
                        && (minutes < 100 ==> |f[1]| == 2))
    && (hours == 0 ==> ParseDigits(f[0]) == minutes)
  }

  /** The fields of the clock text, as `FormatClock` writes them. */
  function ClockFieldList(hours: nat, minutes: nat, seconds: nat): seq<string>
  {
    if hours > 0 then [NatToString(hours), PadStart2(NatToString(minutes)), PadStart2(NatToString(seconds))]
    else [NatToString(minutes), PadStart2(NatToString(seconds))]
  }

  /** The properties `ClockShape` states, proved on the field list. */
  lemma FieldFacts(hours: nat, minutes: nat, seconds: nat)
    ensures ClockFields(ClockFieldList(hours, minutes, seconds), hours, minutes, seconds)
  {
    var ms, sp := NatToString(minutes), PadStart2(NatToString(seconds));
    NumberWidth(minutes);
    NumberWidth(seconds);
    var f := ClockFieldList(hours, minutes, seconds);
    if hours > 0 {
      var hs, mp := NatToString(hours), PadStart2(NatToString(minutes));
      assert f == [hs, mp, sp];
      forall i | 0 <= i < 3 ensures |f[i]| > 0 && AllDigits(f[i]) {
        if i == 0 { assert f[i] == hs; } else if i == 1 { assert f[i] == mp; } else { assert f[i] == sp; }
      }
    } else {
      assert f == [ms, sp];
      forall i | 0 <= i < 2 ensures |f[i]| > 0 && AllDigits(f[i]) {
        if i == 0 { assert f[i] == ms; } else { assert f[i] == sp; }
      }
    }
  }

  /** With hours, the clock text splits into hours, padded minutes and padded seconds. */
  lemma HoursFields(hours: nat, minutes: nat, seconds: nat)
    requires hours > 0
    ensures Split(FormatClock(hours, minutes, seconds), ':')
      == [NatToString(hours), PadStart2(NatToString(minutes)), PadStart2(NatToString(seconds))]
  {
    var hs, mp, sp := NatToString(hours), PadStart2(NatToString(minutes)), PadStart2(NatToString(seconds));
    DigitsHaveNoColon(hs);
    DigitsHaveNoColon(mp);
    DigitsHaveNoColon(sp);
    SplitThree(hs, mp, sp, ':');
    assert FormatClock(hours, minutes, seconds) == hs + [':'] + mp + [':'] + sp;
  }

  /** Without hours, the clock text splits into the minutes and the padded seconds. */
  lemma MinutesFields(minutes: nat, seconds: nat)
    ensures Split(FormatClock(0, minutes, seconds), ':')
      == [NatToString(minutes), PadStart2(NatToString(seconds))]
  {
    var ms, sp := NatToString(minutes), PadStart2(NatToString(seconds));
    DigitsHaveNoColon(ms);
    DigitsHaveNoColon(sp);
    SplitTwo(ms, sp, ':');
    assert FormatClock(0, minutes, seconds) == ms + [':'] + sp;
  }

  /** Below 100 a number has at most two digits. */
  lemma NumberWidth(n: nat)
    ensures n < 100 ==> |NatToString(n)| <= 2
  {
  }

  // The designator format, as a provider writes it.

  function Part(n: Option<nat>, unit: char): string
  {
    match n
    case None => ""
    case Some(k) => NatToString(k) + [unit]
  }

  /** `[nH][nM][nS]` with each component optional. */
  function TimePart(hours: Option<nat>, minutes: Option<nat>, seconds: Option<nat>): string
  {
    Part(hours, 'H') + Part(minutes, 'M') + Part(seconds, 'S')
  }

  /** `PT[nH][nM][nS]`. */
  function Designator(hours: Option<nat>, minutes: Option<nat>, seconds: Option<nat>): string
  {
    "PT" + TimePart(hours, minutes, seconds)
  }

  lemma {:induction false} LeadingDigitsOf(a: string, rest: string)
    requires AllDigits(a) && (rest == "" || !IsDigit(rest[0]))
    ensures LeadingDigits(a + rest) == a
  {
    if |a| > 0 {
      assert (a + rest)[1..] == a[1..] + rest;
      LeadingDigitsOf(a[1..], rest);
      assert [a[0]] + a[1..] == a;
    } else {
      assert a + rest == rest;
    }
  }

  /** A number followed by a unit letter: the group for that letter takes it, any other skips it. */
  lemma TakeNumbered(k: nat, u: char, rest: string, unit: char)
    requires !IsDigit(u)
    ensures var t := NatToString(k) + [u] + rest;
      TakeComponent(t, unit) == if u == unit then Component(k, rest) else Component(0, t)
  {
    var d := NatToString(k);
    var t := d + [u] + rest;
    assert t == d + ([u] + rest);
    LeadingDigitsOf(d, [u] + rest);
    assert LeadingDigits(t) == d && ParseDigits(d) == k;
    assert t[|d|] == u;
    assert t[|d| + 1..] == rest;
  }

  /** The group for `unit` over the parts that follow: present parts of other units are skipped. */
  lemma TakePart(n: Option<nat>, unit: char, tail: string)
    requires !IsDigit(unit)
    requires tail == "" || TakeComponent(tail, unit) == Component(0, tail)
    ensures TakeComponent(Part(n, unit) + tail, unit) == Component(n.GetOr(0), tail)
  {
    match n
    case None =>
      assert Part(n, unit) + tail == tail;
    case Some(k) =>
      TakeNumbered(k, unit, tail, unit);
  }

  /**
   * Nothing at the start of `rest` is a group `(\d+U)?` for any of the
   * units: the regular expression, which is not anchored at its end,
   * stops there and ignores whatever follows.
   */
  predicate NoGroupAhead(rest: string)
  {
    && TakeComponent(rest, 'H').rest == rest
    && TakeComponent(rest, 'M').rest == rest
    && TakeComponent(rest, 'S').rest == rest
  }

  /** Empty text, or text that does not open with a digit, starts no group. */
  lemma NonDigitNoGroup(rest: string)
    requires rest == "" || !IsDigit(rest[0])
    ensures NoGroupAhead(rest)
  {
  }

  /** A present part of another unit, or none, followed by text that starts no group for `unit`. */
  lemma SkipPart(b: Option<nat>, ub: char, unit: char, rest: string)
    requires !IsDigit(ub) && ub != unit
    requires TakeComponent(rest, unit).rest == rest
    ensures TakeComponent(Part(b, ub) + rest, unit) == Component(0, Part(b, ub) + rest)
  {
    match b
    case None =>
      assert Part(b, ub) + rest == rest;
    case Some(k) =>
      assert Part(b, ub) + rest == NatToString(k) + [ub] + rest;
      TakeNumbered(k, ub, rest, unit);
  }

  lemma SkipParts(a: Option<nat>, ua: char, b: Option<nat>, ub: char, unit: char, rest: string)
    requires !IsDigit(ua) && !IsDigit(ub) && ua != unit && ub != unit
    requires TakeComponent(rest, unit).rest == rest
    ensures var t := Part(a, ua) + Part(b, ub) + rest;
      TakeComponent(t, unit) == Component(0, t)
  {
    var tail := Part(b, ub) + rest;
    assert Part(a, ua) + Part(b, ub) + rest == Part(a, ua) + tail;
    SkipPart(b, ub, unit, rest);
    SkipPart(a, ua, unit, tail);
  }

  /** After text without "PT", the leftmost "PT" is the one that follows it. */
  lemma DesignatorPosition(prefix: string, rest: string)
    requires !Contains(prefix, "PT")
    ensures FindDesignator(prefix + "PT" + rest) == Some(|prefix|)
  {
    var d := prefix + "PT" + rest;
    assert MatchAt(d, "PT", |prefix|) by {
      assert d[|prefix|..|prefix| + 2] == "PT";
    }
    forall j | 0 <= j < |prefix|
      ensures !MatchAt(d, "PT", j)
    {
      if j + 2 <= |prefix| {
        assert d[j..j + 2] == prefix[j..j + 2];
        assert !MatchAt(prefix, "PT", j);
      } else {
        assert d[j + 1] == 'P';
        assert d[j..j + 2][1] == d[j + 1];
      }
    }
  }

  /**
   * Each group takes its own component and skips the later ones; text
   * after the groups that starts no further group is ignored.
   */
  lemma ReadPartsThen(hours: Option<nat>, minutes: Option<nat>, seconds: Option<nat>, rest: string)
    requires NoGroupAhead(rest)
    ensures ReadTime(TimePart(hours, minutes, seconds) + rest)
         == FormatClock(hours.GetOr(0), minutes.GetOr(0), seconds.GetOr(0))
  {
    HoursRead(hours, minutes, seconds, rest);
    MinutesRead(minutes, seconds, rest);
    SecondsRead(seconds, rest);
  }

  /** The time part on its own. */
  lemma ReadParts(hours: Option<nat>, minutes: Option<nat>, seconds: Option<nat>)
    ensures ReadTime(TimePart(hours, minutes, seconds))
         == FormatClock(hours.GetOr(0), minutes.GetOr(0), seconds.GetOr(0))
  {
    NonDigitNoGroup("");
    ReadPartsThen(hours, minutes, seconds, "");
    assert TimePart(hours, minutes, seconds) + "" == TimePart(hours, minutes, seconds);
  }

  lemma Regroup(a: string, b: string, c: string, d: string)
    ensures a + b + c + d == a + (b + c + d)
  {
  }

  lemma HoursRead(hours: Option<nat>, minutes: Option<nat>, seconds: Option<nat>, rest: string)
    requires NoGroupAhead(rest)
    ensures TakeComponent(TimePart(hours, minutes, seconds) + rest, 'H')
         == Component(hours.GetOr(0), Part(minutes, 'M') + Part(seconds, 'S') + rest)
  {
    var ph, pm, ps := Part(hours, 'H'), Part(minutes, 'M'), Part(seconds, 'S');
    var tail := pm + ps + rest;
    assert TimePart(hours, minutes, seconds) + rest == ph + tail by {
      assert TimePart(hours, minutes, seconds) == ph + pm + ps;
      Regroup(ph, pm, ps, rest);
    }
    assert TakeComponent(tail, 'H') == Component(0, tail) by {
      SkipParts(minutes, 'M', seconds, 'S', 'H', rest);
    }
    TakePart(hours, 'H', tail);
  }

  lemma MinutesRead(minutes: Option<nat>, seconds: Option<nat>, rest: string)
    requires NoGroupAhead(rest)
    ensures TakeComponent(Part(minutes, 'M') + Part(seconds, 'S') + rest, 'M')
         == Component(minutes.GetOr(0), Part(seconds, 'S') + rest)
  {
    var pm, tail := Part(minutes, 'M'), Part(seconds, 'S') + rest;
    assert pm + Part(seconds, 'S') + rest == pm + tail;
    assert TakeComponent(tail, 'M') == Component(0, tail) by {
      SkipPart(seconds, 'S', 'M', rest);
    }
    TakePart(minutes, 'M', tail);
  }

  lemma SecondsRead(seconds: Option<nat>, rest: string)
    requires NoGroupAhead(rest)
    ensures TakeComponent(Part(seconds, 'S') + rest, 'S') == Component(seconds.GetOr(0), rest)
  {
    TakePart(seconds, 'S', rest);
  }

  /**
   * Round trip: a designator written after any text that holds no "PT",
   * and followed by text that starts no further group, is read back
   * component by component, absent components as 0.
   */
  lemma DesignatorRoundTrip(prefix: string, hours: Option<nat>, minutes: Option<nat>, seconds: Option<nat>, suffix: string)
    requires !Contains(prefix, "PT") && NoGroupAhead(suffix)
    ensures FormatDuration(prefix + Designator(hours, minutes, seconds) + suffix)
         == FormatClock(hours.GetOr(0), minutes.GetOr(0), seconds.GetOr(0))
  {
    var time := TimePart(hours, minutes, seconds) + suffix;
    var input := prefix + Designator(hours, minutes, seconds) + suffix;
    assert input == prefix + "PT" + time;
    calc {
      FormatDuration(input);
    == { ReadAfterDesignator(prefix, time); }
      ReadTime(time);
    == { ReadPartsThen(hours, minutes, seconds, suffix); }
      FormatClock(hours.GetOr(0), minutes.GetOr(0), seconds.GetOr(0));
    }
  }

  lemma ReadAfterDesignator(prefix: string, time: string)
    requires !Contains(prefix, "PT")
    ensures FormatDuration(prefix + "PT" + time) == ReadTime(time)
  {
    var d := prefix + "PT" + time;
    DesignatorPosition(prefix, time);
    assert d[|prefix| + 2..] == time;
  }

  /** A duration that is exactly a designator. */
  lemma DesignatorRead(hours: Option<nat>, minutes: Option<nat>, seconds: Option<nat>)
    ensures FormatDuration(Designator(hours, minutes, seconds))
         == FormatClock(hours.GetOr(0), minutes.GetOr(0), seconds.GetOr(0))
  {
    var time := TimePart(hours, minutes, seconds);
    assert Designator(hours, minutes, seconds) == "" + "PT" + time;
    MissingChar("", "PT", 0);
    ReadAfterDesignator("", time);
    ReadParts(hours, minutes, seconds);
  }

  lemma SpelledExamples()
    ensures Designator(Some(1), Some(2), Some(3)) == "PT1H2M3S"
    ensures Designator(None, Some(10), Some(45)) == "PT10M45S"
    ensures Designator(None, Some(5), None) == "PT5M"
    ensures Designator(Some(0), Some(5), None) == "PT0H5M"
  {
  }

  lemma ClockExamples()
    ensures FormatClock(1, 2, 3) == "1:02:03"
    ensures FormatClock(0, 10, 45) == "10:45"
    ensures FormatClock(0, 5, 0) == "5:00"
    ensures FormatClock(0, 1, 0) == "1:00"
  {
  }

  // Worked examples: a duration with hours, the one of the documentation comment, minutes only, and text that is no duration.

  lemma ExampleWithHours()
    ensures FormatDuration("PT1H2M3S") == "1:02:03"
  {
    SpelledExamples();
    ClockExamples();
    DesignatorRead(Some(1), Some(2), Some(3));
  }

  lemma ExampleMinutesSeconds()
    ensures FormatDuration("PT10M45S") == "10:45"
  {
    SpelledExamples();
    ClockExamples();
    DesignatorRead(None, Some(10), Some(45));
  }

  lemma ExampleMinutesOnly()
    ensures FormatDuration("PT5M") == "5:00"
    ensures FormatDuration("PT0H5M") == "5:00"
  {
    SpelledExamples();
    ClockExamples();
    DesignatorRead(None, Some(5), None);
    DesignatorRead(Some(0), Some(5), None);
  }

  lemma SpelledTrailing()
    ensures "" + Designator(None, Some(1), None) + "30.5S" == "PT1M30.5S"
    ensures "" + Designator(None, Some(5), None) + " PT3M" == "PT5M PT3M"
  {
  }

  lemma FractionNoGroup()
    ensures NoGroupAhead("30.5S")
  {
    LeadingDigitsOf("30", ".5S");
    assert "30.5S" == "30" + ".5S";
  }

  /** Fractional seconds: the seconds group stops at the '.', so only the minutes are read. */
  lemma ExampleFractionalSeconds()
    ensures FormatDuration("PT1M30.5S") == "1:00"
  {
    SpelledTrailing();
    ClockExamples();
    FractionNoGroup();
    MissingChar("", "PT", 0);
    DesignatorRoundTrip("", None, Some(1), None, "30.5S");
  }

  /** A second designator after the first is never reached. */
  lemma ExampleTrailingDesignator()
    ensures FormatDuration("PT5M PT3M") == "5:00"
  {
    SpelledTrailing();
    ClockExamples();
    MissingChar("", "PT", 0);
    NonDigitNoGroup(" PT3M");
    DesignatorRoundTrip("", None, Some(5), None, " PT3M");
  }

  lemma ExampleGarbage()
    ensures FormatDuration("garbage") == "0:00"
  {
    MissingChar("garbage", "PT", 0);
    NoDesignatorIsZero("garbage");
  }

  lemma NoPTInDayForm()
    ensures !Contains("P1DT2H3M4S", "PT")
  {
    var s := "P1DT2H3M4S";
    ContainsCons(s, "PT");
    assert !MatchAt(s, "PT", 0) by {
      assert s[0..2][1] == '1';
    }
    assert s[1..] == "1DT2H3M4S";
    MissingChar(s[1..], "PT", 0);
  }

  /**
   * A duration of a day or more carries a day component ("P1DT2H3M4S"),
   * which puts "DT" rather than "PT" before the time part: the
   * expression then finds nothing and the result is "0:00".
   */
  lemma DayDurationIsZero()
    ensures FormatDuration("P1DT2H3M4S") == "0:00"
  {
    NoPTInDayForm();
    NoDesignatorIsZero("P1DT2H3M4S");
  }
}
