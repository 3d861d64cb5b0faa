/** The parser's own examples, on the flattened sequences their phrases are
    assumed to produce: the texts of the rules the parser reads are filled
    in, the others left empty. Each whole sequence is a parameter fixed by
    its precondition, and each is proved from the examples of its parts. */
module ParserExamples {
  import opened Wrappers
  import opened Integers
  import opened Grammar
  import opened Clues
  import opened Parser

  /** The time part "9 pm". */
  lemma AmPmTimeExample(time: seq<Token>)
    requires time == [(Rule.Hms, "9"), (Rule.AmOrPm, "pm")]
    ensures ParseTimeHms(time) == Success(TimeClue.Time((9, 0, 0), Some(PM)))
  {
    var p := HmsMatch(["9"], Some("pm"));
    MatchHmsTokens(p);
    assert HmsTokens(p) == time;
  }

  /** "9 pm". */
  lemma TimeAmPmExample(toks: seq<Token>)
    requires toks == [(Rule.TimeClue, ""), (Rule.Time, ""), (Rule.Hms, "9"), (Rule.AmOrPm, "pm"), (Rule.EOI, "")]
    ensures ParseTimeClue(toks) == Success(TimeClue.Time((9, 0, 0), Some(PM)))
  {
    assert MatchClue(toks) == Some(TimeForm(toks[2..4]));
    assert toks[2..4] == [(Rule.Hms, "9"), (Rule.AmOrPm, "pm")];
    AmPmTimeExample(toks[2..4]);
  }

  /** The time part "9:30:56". */
  lemma TimeFieldsExample(time: seq<Token>)
    requires time == [(Rule.Hms, "9"), (Rule.Hms, "30"), (Rule.Hms, "56")]
    ensures ParseTimeHms(time) == Success(TimeClue.Time((9, 30, 56), None))
  {
    var p := HmsMatch(["9", "30", "56"], None);
    MatchHmsTokens(p);
    assert HmsTokens(p) == time;
    assert Decimal(30) == "30";
    ParseUnsignedDecimal(30, U32_MAX);
    assert Decimal(56) == "56";
    ParseUnsignedDecimal(56, U32_MAX);
  }

  /** "9:30:56". */
  lemma TimeClueExample(toks: seq<Token>)
    requires toks == [(Rule.TimeClue, ""), (Rule.Time, ""), (Rule.Hms, "9"), (Rule.Hms, "30"), (Rule.Hms, "56"), (Rule.EOI, "")]
    ensures ParseTimeClue(toks) == Success(TimeClue.Time((9, 30, 56), None))
  {
    assert MatchClue(toks) == Some(TimeForm(toks[2..5]));
    assert toks[2..5] == [(Rule.Hms, "9"), (Rule.Hms, "30"), (Rule.Hms, "56")];
    TimeFieldsExample(toks[2..5]);
  }

  /** The time part "9 xm": the number reads, the am/pm word does not. */
  lemma UnknownAmPmTimeExample(time: seq<Token>)
    requires time == [(Rule.Hms, "9"), (Rule.AmOrPm, "xm")]
    ensures ParseTimeHms(time) == Failure(UnknownAMPM("xm"))
  {
    var p := HmsMatch(["9"], Some("xm"));
    MatchHmsTokens(p);
    assert HmsTokens(p) == time;
  }

  /** "9 xm" fails with the unknown word. */
  lemma UnknownAmPmExample(toks: seq<Token>)
    requires toks == [(Rule.TimeClue, ""), (Rule.Time, ""), (Rule.Hms, "9"), (Rule.AmOrPm, "xm"), (Rule.EOI, "")]
    ensures ParseTimeClue(toks) == Failure(UnknownAMPM("xm"))
  {
    assert MatchClue(toks) == Some(TimeForm(toks[2..4]));
    assert toks[2..4] == [(Rule.Hms, "9"), (Rule.AmOrPm, "xm")];
    UnknownAmPmTimeExample(toks[2..4]);
  }

  /** "25:99" is read without any range check. */
  lemma NoRangeCheckExample(time: seq<Token>)
    requires time == [(Rule.Hms, "25"), (Rule.Hms, "99")]
    ensures ParseTimeHms(time) == Success(TimeClue.Time((25, 99, 0), None))
  {
    var p := HmsMatch(["25", "99"], None);
    MatchHmsTokens(p);
    assert HmsTokens(p) == time;
    assert Decimal(25) == "25";
    ParseUnsignedDecimal(25, U32_MAX);
    assert Decimal(99) == "99";
    ParseUnsignedDecimal(99, U32_MAX);
  }

  /** "2 hours ago". */
  lemma RelativeExample(toks: seq<Token>)
    requires toks == [(Rule.TimeClue, ""), (Rule.Relative, ""), (Rule.Int, "2"), (Rule.Quantifier, "hours"), (Rule.EOI, "")]
    ensures ParseTimeClue(toks) == Success(TimeClue.Relative(2, Hours))
  {
    assert Framed(toks) && |toks| == 5 && toks[1].0 == Rule.Relative;
    assert toks[2..4] == [(Rule.Int, "2"), (Rule.Quantifier, "hours")];
    assert MatchClue(toks) == Some(RelativeForm(false, "2", "hours"));
  }

  /** "2 fortnights ago" fails with the unknown unit. */
  lemma UnknownQuantifierExample(toks: seq<Token>)
    requires toks == [(Rule.TimeClue, ""), (Rule.Relative, ""), (Rule.Int, "2"), (Rule.Quantifier, "fortnights"), (Rule.EOI, "")]
    ensures ParseTimeClue(toks) == Failure(UnknownQuantifier("fortnights"))
  {
    assert Framed(toks) && |toks| == 5 && toks[1].0 == Rule.Relative;
    assert toks[2..4] == [(Rule.Int, "2"), (Rule.Quantifier, "fortnights")];
    assert MatchClue(toks) == Some(RelativeForm(false, "2", "fortnights"));
  }

  /** "in 2 d". */
  lemma RelativeFutureExample(toks: seq<Token>)
    requires toks == [(Rule.TimeClue, ""), (Rule.RelativeFuture, ""), (Rule.Int, "2"), (Rule.Quantifier, "d"), (Rule.EOI, "")]
    ensures ParseTimeClue(toks) == Success(TimeClue.RelativeFuture(2, Days))
  {
    assert Framed(toks) && |toks| == 5 && toks[1].0 == Rule.RelativeFuture;
    assert toks[2..4] == [(Rule.Int, "2"), (Rule.Quantifier, "d")];
    assert MatchClue(toks) == Some(RelativeForm(true, "2", "d"));
  }

  /** The day-at part of "last friday". */
  lemma LastFridayDayAtExample(mday: seq<Token>)
    requires mday == [(Rule.Modifier, "last"), (Rule.Weekday, "friday")]
    ensures ParseDayAt(mday) == Success(TimeClue.RelativeDayAt(Last, Friday, None, None))
  {
    assert MatchDay(mday) == Some(ModWeekday("last", "friday"));
  }

  /** "last friday". */
  lemma LastFridayExample(toks: seq<Token>)
    requires toks == [(Rule.TimeClue, ""), (Rule.DayAt, ""), (Rule.MDay, ""), (Rule.Modifier, "last"),
                      (Rule.Weekday, "friday"), (Rule.EOI, "")]
    ensures ParseTimeClue(toks) == Success(TimeClue.RelativeDayAt(Last, Friday, None, None))
  {
    assert Framed(toks) && |toks| == 6 && toks[1].0 == Rule.DayAt && toks[2].0 == Rule.MDay;
    ParseDayAtForm(toks);
    LastFridayDayAtExample(toks[3..5]);
  }

  /** The time part "19:43". */
  lemma ShortTimeExample(time: seq<Token>)
    requires time == [(Rule.Hms, "19"), (Rule.Hms, "43")]
    ensures ParseTimeHms(time) == Success(TimeClue.Time((19, 43, 0), None))
  {
    var p := HmsMatch(["19", "43"], None);
    MatchHmsTokens(p);
    assert HmsTokens(p) == time;
    assert Decimal(19) == "19";
    ParseUnsignedDecimal(19, U32_MAX);
    assert Decimal(43) == "43";
    ParseUnsignedDecimal(43, U32_MAX);
  }

  /** The day-at part of "yesterday at 19:43". */
  lemma ShortcutDayAtExample(mday: seq<Token>)
    requires |mday| == 4 && mday[0] == (Rule.ShortcutDay, "yesterday") && mday[1].0 == Rule.Time
    requires mday[2] == (Rule.Hms, "19") && mday[3] == (Rule.Hms, "43")
    ensures ParseDayAt(mday)
            == Success(TimeClue.ShortcutDayAt(Yesterday, Some((19, 43, 0)), None))
  {
    assert MatchDay(mday) == Some(ShortcutTime("yesterday", mday[2..]));
    assert mday[2..] == [(Rule.Hms, "19"), (Rule.Hms, "43")];
    ShortTimeExample(mday[2..]);
  }

  /** "yesterday at 19:43". */
  lemma ShortcutExample(toks: seq<Token>)
    requires toks == [(Rule.TimeClue, ""), (Rule.DayAt, ""), (Rule.MDay, ""), (Rule.ShortcutDay, "yesterday"),
                      (Rule.Time, ""), (Rule.Hms, "19"), (Rule.Hms, "43"), (Rule.EOI, "")]
    ensures ParseTimeClue(toks) == Success(TimeClue.ShortcutDayAt(Yesterday, Some((19, 43, 0)), None))
  {
    assert Framed(toks) && |toks| == 8 && toks[1].0 == Rule.DayAt && toks[2].0 == Rule.MDay;
    ParseDayAtForm(toks);
    ShortcutDayAtExample(toks[3..7]);
  }

  /** The date texts "2020", "12" and "25". */
  lemma DateTextsExample()
    ensures ParseI32("2020") == Some(2020) && ParseU32("12") == Some(12) && ParseU32("25") == Some(25)
  {
    assert Decimal(2020) == "2020";
    ParseSignedDecimal(2020, I32_MIN, I32_MAX);
    assert Decimal(12) == "12";
    ParseUnsignedDecimal(12, U32_MAX);
    assert Decimal(25) == "25";
    ParseUnsignedDecimal(25, U32_MAX);
  }

  /** "25/12/2020": the date-only form, at midnight. */
  lemma DateExample(toks: seq<Token>)
    requires toks == [(Rule.TimeClue, ""), (Rule.Date, ""), (Rule.Day, "25"), (Rule.Month, "12"), (Rule.Year, "2020"), (Rule.EOI, "")]
    ensures ParseTimeClue(toks) == Success(TimeClue.ISO((2020, 12, 25), (0, 0, 0)))
  {
    DateTextsExample();
    DateFormReorders(toks);
  }

  /** The time part "19:43:42". */
  lemma IsoTimeExample(time: seq<Token>)
    requires time == [(Rule.Hms, "19"), (Rule.Hms, "43"), (Rule.Hms, "42")]
    ensures ParseTimeHms(time) == Success(TimeClue.Time((19, 43, 42), None))
  {
    var p := HmsMatch(["19", "43", "42"], None);
    MatchHmsTokens(p);
    assert HmsTokens(p) == time;
    assert Decimal(19) == "19";
    ParseUnsignedDecimal(19, U32_MAX);
    assert Decimal(43) == "43";
    ParseUnsignedDecimal(43, U32_MAX);
    assert Decimal(42) == "42";
    ParseUnsignedDecimal(42, U32_MAX);
  }

  /** The ISO arm on the texts of "2020-12-25T19:43:42". */
  lemma IsoBuildExample(time: seq<Token>)
    requires time == [(Rule.Hms, "19"), (Rule.Hms, "43"), (Rule.Hms, "42")]
    ensures BuildIso("2020", "12", "25", time)
            == Success(TimeClue.ISO((2020, 12, 25), (19, 43, 42)))
  {
    DateTextsExample();
    IsoTimeExample(time);
  }

  /** "2020-12-25T19:43:42". */
  lemma IsoExample(toks: seq<Token>)
    requires toks == [(Rule.TimeClue, ""), (Rule.Iso, ""), (Rule.Year, "2020"), (Rule.Month, "12"), (Rule.Day, "25"),
                      (Rule.Hms, "19"), (Rule.Hms, "43"), (Rule.Hms, "42"), (Rule.EOI, "")]
    ensures ParseTimeClue(toks) == Success(TimeClue.ISO((2020, 12, 25), (19, 43, 42)))
  {
    assert |toks| == 9 && toks[1].0 == Rule.Iso && toks[2].0 == Rule.Year && toks[3].0 == Rule.Month && toks[4].0 == Rule.Day;
    ParseIsoForm(toks);
    assert toks[5..8] == [(Rule.Hms, "19"), (Rule.Hms, "43"), (Rule.Hms, "42")];
    IsoBuildExample(toks[5..8]);
  }
}
