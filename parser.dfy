/** The clue builder: from the flattened rule sequence of one phrase to exactly
    one time clue, or a parse error. The recognisers for the closed word
    classes (weekday, am/pm, shortcut day, modifier, quantifier) come first,
    then the time-of-day reader, then the matcher over whole sequences. */
module Parser {
  import opened Wrappers
  import opened Integers
  import opened Grammar
  import opened Clues

  // ---------------------------------------------------------------------
  // Spellings of the closed word classes

  /** The full lowercase name of a weekday. */
  function WeekdayName(w: Weekday): string {
    match w
    case Monday => "monday"
    case Tuesday => "tuesday"
    case Wednesday => "wednesday"
    case Thursday => "thursday"
    case Friday => "friday"
    case Saturday => "saturday"
    case Sunday => "sunday"
  }

  /** The three-letter abbreviation of a weekday. */
  function WeekdayAbbreviation(w: Weekday): string {
    match w
    case Monday => "mon"
    case Tuesday => "tue"
    case Wednesday => "wed"
    case Thursday => "thu"
    case Friday => "fri"
    case Saturday => "sat"
    case Sunday => "sun"
  }

  function AmPmName(a: AmPm): string {
    match a
    case AM => "am"
    case PM => "pm"
  }

  function ShortcutDayName(d: ShortcutDay): string {
    match d
    case Today => "today"
    case Yesterday => "yesterday"
    case Tomorrow => "tomorrow"
  }

  function ModifierName(m: Modifier): string {
    match m
    case Last => "last"
    case Next => "next"
  }

  /** Every spelling of a unit; the first listed is the one `QuantifierName` gives. */
  function QuantifierSpellings(q: Quantifier): set<string> {
    match q
    case Min => {"min"}
    case Hours => {"hours", "hour", "h"}
    case Days => {"days", "day", "d"}
    case Weeks => {"weeks", "week", "w"}
    case Months => {"months", "month"}
  }

  function QuantifierName(q: Quantifier): (s: string)
    ensures s in QuantifierSpellings(q)
  {
    match q
    case Min => "min"
    case Hours => "hours"
    case Days => "days"
    case Weeks => "weeks"
    case Months => "months"
  }

  // ---------------------------------------------------------------------
  // Recognisers for the closed word classes

  /** A weekday from its full lowercase name or its three-letter abbreviation. */
  function WeekdayFrom(s: string): (r: Result<Weekday, ParseError>)
    ensures r.Failure? ==> r.error == UnknownWeekday(s)
  {
    match s
      case "monday" | "mon" => Success(Monday)
      case "tuesday" | "tue" => Success(Tuesday)
      case "wednesday" | "wed" => Success(Wednesday)
      case "thursday" | "thu" => Success(Thursday)
      case "friday" | "fri" => Success(Friday)
      case "saturday" | "sat" => Success(Saturday)
      case "sunday" | "sun" => Success(Sunday)
      case _ => Failure(UnknownWeekday(s))
  }
  /** A weekday is recognised exactly from its name and its abbreviation. */
  lemma WeekdayFromSpec(s: string)
    ensures forall w :: (s == WeekdayName(w) || s == WeekdayAbbreviation(w)) <==> WeekdayFrom(s) == Success(w)
  {
  }


  function AmOrPmFrom(s: string): (r: Result<AmPm, ParseError>)
    ensures r.Failure? ==> r.error == UnknownAMPM(s)
  {
    match s
      case "am" => Success(AM)
      case "pm" => Success(PM)
      case _ => Failure(UnknownAMPM(s))
  }
  /** Exactly "am" and "pm" are recognised. */
  lemma AmOrPmFromSpec(s: string)
    ensures forall a :: s == AmPmName(a) <==> AmOrPmFrom(s) == Success(a)
  {
  }


  function ShortcutDayFrom(s: string): (r: Result<ShortcutDay, ParseError>)
    ensures r.Failure? ==> r.error == UnknownShortcutDay(s)
  {
    match s
      case "today" => Success(Today)
      case "yesterday" => Success(Yesterday)
      case "tomorrow" => Success(Tomorrow)
      case _ => Failure(UnknownShortcutDay(s))
  }
  /** A shortcut day is recognised exactly from its name. */
  lemma ShortcutDayFromSpec(s: string)
    ensures forall d :: s == ShortcutDayName(d) <==> ShortcutDayFrom(s) == Success(d)
  {
  }


  function ModifierFrom(s: string): (r: Result<Modifier, ParseError>)
    ensures r.Failure? ==> r.error == UnknownModifier(s)
  {
    match s
      case "last" => Success(Last)
      case "next" => Success(Next)
      case _ => Failure(UnknownModifier(s))
  }
  /** Exactly "last" and "next" are recognised. */
  lemma ModifierFromSpec(s: string)
    ensures forall m :: s == ModifierName(m) <==> ModifierFrom(s) == Success(m)
  {
  }


  function QuantifierFrom(s: string): (r: Result<Quantifier, ParseError>)
    ensures r.Failure? ==> r.error == UnknownQuantifier(s)
  {
    match s
      case "min" => Success(Min)
      case "hours" | "hour" | "h" => Success(Hours)
      case "days" | "day" | "d" => Success(Days)
      case "weeks" | "week" | "w" => Success(Weeks)
      case "months" | "month" => Success(Months)
      case _ => Failure(UnknownQuantifier(s))
  }
  /** A unit is recognised exactly from each of its spellings. */
  lemma QuantifierFromSpec(s: string)
    ensures forall q :: s in QuantifierSpellings(q) <==> QuantifierFrom(s) == Success(q)
  {
  }


  // ---------------------------------------------------------------------
  // Integer fields: a text that does not parse as the field's type is ParseInt

  function ReadU32(s: string): (r: Result<nat, ParseError>)
    ensures r.Success? <==> ParseU32(s).Some?
    ensures r.Success? ==> r.value == ParseU32(s).value
    ensures r.Failure? ==> r.error == ParseInt
  {
    match ParseU32(s)
    case Some(v) => Success(v)
    case None => Failure(ParseInt)
  }

  function ReadUsize(s: string): (r: Result<nat, ParseError>)
    ensures r.Success? <==> ParseUsize(s).Some?
    ensures r.Success? ==> r.value == ParseUsize(s).value
    ensures r.Failure? ==> r.error == ParseInt
  {
    match ParseUsize(s)
    case Some(v) => Success(v)
    case None => Failure(ParseInt)
  }

  function ReadI32(s: string): (r: Result<int, ParseError>)
    ensures r.Success? <==> ParseI32(s).Some?
    ensures r.Success? ==> r.value == ParseI32(s).value
    ensures r.Failure? ==> r.error == ParseInt
  {
    match ParseI32(s)
    case Some(v) => Success(v)
    case None => Failure(ParseInt)
  }

  // ---------------------------------------------------------------------
  // Time of day. The reader's six patterns are one, two or three `hms`
  // tokens, each optionally followed by one `am_or_pm` token; every arm reads
  // hour, minute and second in that order, then the am/pm word.

  /** What a pattern of the time-of-day reader binds: the texts of its `hms`
      tokens and the text of its `am_or_pm` token, if it has one. */
  datatype HmsMatch = HmsMatch(numbers: seq<string>, ampm: Option<string>)

  predicate HasAmPm(toks: seq<Token>) {
    |toks| > 0 && toks[|toks| - 1].0 == Rule.AmOrPm
  }

  /** The number of tokens before the optional trailing `am_or_pm`. */
  function HmsCount(toks: seq<Token>): (k: nat)
    ensures k <= |toks|
  {
    if HasAmPm(toks) then |toks| - 1 else |toks|
  }

  /** The shapes the time-of-day reader accepts: every token before the
      optional am/pm is an `hms`, and there are one to three of them. */
  predicate HmsShape(toks: seq<Token>) {
    var k := HmsCount(toks);
    1 <= k <= 3 && toks[0].0 == Rule.Hms && (k >= 2 ==> toks[1].0 == Rule.Hms) && (k == 3 ==> toks[2].0 == Rule.Hms)
  }

  /** The tokens a match binds, in order. */
  function HmsTokens(p: HmsMatch): seq<Token> {
    seq(|p.numbers|, i requires 0 <= i < |p.numbers| => (Rule.Hms, p.numbers[i]))
    + match p.ampm
      case Some(a) => [(Rule.AmOrPm, a)]
      case None => []
  }

  /** The structural half of `parse_time_hms`, as a scan from the left:
      `numbers` holds the texts of the `hms` tokens passed so far. At most
      three are taken, and an `am_or_pm` token is accepted only last and only
      after one. */
  function ScanHms(numbers: seq<string>, toks: seq<Token>): (r: Option<HmsMatch>)
    requires |numbers| <= 3
    ensures r.Some? ==> 1 <= |r.value.numbers| <= 3
    decreases |toks|
  {
    if toks == [] then
      if numbers != [] then Some(HmsMatch(numbers, None)) else None
    else if toks[0].0 == Rule.Hms && |numbers| < 3 then
      ScanHms(numbers + [toks[0].1], toks[1..])
    else if toks[0].0 == Rule.AmOrPm && |toks| == 1 && numbers != [] then
      Some(HmsMatch(numbers, Some(toks[0].1)))
    else
      None
  }

  /** The pattern of `parse_time_hms` the tokens match, if any. */
  function MatchHms(toks: seq<Token>): (r: Option<HmsMatch>)
    ensures r.Some? ==> 1 <= |r.value.numbers| <= 3
  {
    ScanHms([], toks)
  }

  /** A scan binds every token it passes, in order. */
  lemma {:induction false} ScanHmsExact(numbers: seq<string>, toks: seq<Token>)
    requires |numbers| <= 3 && ScanHms(numbers, toks).Some?
    ensures HmsTokens(ScanHms(numbers, toks).value) == HmsTokens(HmsMatch(numbers, None)) + toks
    decreases |toks|
  {
    var p := ScanHms(numbers, toks).value;
    if toks != [] && toks[0].0 == Rule.Hms && |numbers| < 3 {
      var numbers' := numbers + [toks[0].1];
      ScanHmsExact(numbers', toks[1..]);
      assert HmsTokens(HmsMatch(numbers', None)) == HmsTokens(HmsMatch(numbers, None)) + [toks[0]];
    } else if toks != [] {
      assert HmsTokens(p) == HmsTokens(HmsMatch(numbers, None)) + [toks[0]];
    }
  }

  /** A scan takes the `hms` tokens of a match, then its am/pm. */
  lemma {:induction false} ScanHmsTokens(numbers: seq<string>, rest: seq<string>, ampm: Option<string>)
    requires 1 <= |numbers| + |rest| <= 3
    ensures ScanHms(numbers, HmsTokens(HmsMatch(rest, ampm))) == Some(HmsMatch(numbers + rest, ampm))
    decreases |rest|
  {
    var toks := HmsTokens(HmsMatch(rest, ampm));
    if rest != [] {
      assert toks[0] == (Rule.Hms, rest[0]);
      assert toks[1..] == HmsTokens(HmsMatch(rest[1..], ampm));
      ScanHmsTokens(numbers + [rest[0]], rest[1..], ampm);
      assert numbers + [rest[0]] + rest[1..] == numbers + rest;
    } else {
      assert numbers + rest == numbers;
    }
  }

  /** A match binds every token: the tokens are exactly those of the match. */
  lemma {:induction false} MatchHmsExact(toks: seq<Token>)
    requires MatchHms(toks).Some?
    ensures HmsTokens(MatchHms(toks).value) == toks
  {
    ScanHmsExact([], toks);
  }

  /** Conversely, the tokens of every match with one to three numbers match it. */
  lemma {:induction false} MatchHmsTokens(p: HmsMatch)
    requires 1 <= |p.numbers| <= 3
    ensures MatchHms(HmsTokens(p)) == Some(p)
  {
    ScanHmsTokens([], p.numbers, p.ampm);
    assert [] + p.numbers == p.numbers;
  }

  /** The scan accepts exactly the six patterns of `parse_time_hms`. */
  lemma {:induction false} MatchHmsShape(toks: seq<Token>)
    ensures MatchHms(toks).Some? <==> HmsShape(toks)
  {
    if MatchHms(toks).Some? {
      var p := MatchHms(toks).value;
      MatchHmsExact(toks);
      assert toks[0] == (Rule.Hms, p.numbers[0]);
      assert HmsCount(toks) == |p.numbers|;
      assert forall i :: 0 <= i < |p.numbers| ==> toks[i] == (Rule.Hms, p.numbers[i]);
    }
    if HmsShape(toks) {
      var k := HmsCount(toks);
      var numbers := seq(k, i requires 0 <= i < k => toks[i].1);
      var p := HmsMatch(numbers, if HasAmPm(toks) then Some(toks[k].1) else None);
      assert |HmsTokens(p)| == |toks|;
      assert forall i :: 0 <= i < |toks| ==> HmsTokens(p)[i] == toks[i];
      assert HmsTokens(p) == toks;
      MatchHmsTokens(p);
    }
  }

  /** The texts of the first `k` tokens. */
  function Texts(toks: seq<Token>, k: nat): (texts: seq<string>)
    requires k <= |toks|
    ensures |texts| == k
  {
    seq(k, i requires 0 <= i < k => toks[i].1)
  }

  /** A pattern binds the texts of its `hms` tokens, in order, and the text
      of the trailing `am_or_pm` token when there is one. */
  lemma {:induction false} MatchHmsBinds(toks: seq<Token>)
    requires HmsShape(toks)
    ensures MatchHms(toks)
            == Some(HmsMatch(Texts(toks, HmsCount(toks)), if HasAmPm(toks) then Some(toks[|toks| - 1].1) else None))
  {
    MatchHmsShape(toks);
    MatchHmsExact(toks);
    var p := MatchHms(toks).value;
    var k := HmsCount(toks);
    assert |HmsTokens(p)| == |p.numbers| + (if p.ampm.Some? then 1 else 0);
    assert |p.numbers| == k;
    assert forall i :: 0 <= i < k ==> HmsTokens(p)[i] == toks[i];
    assert p.numbers == Texts(toks, k);
    if p.ampm.Some? {
      assert HmsTokens(p)[|toks| - 1] == (Rule.AmOrPm, p.ampm.value);
    }
  }

  /** Field `i` of the time is the `i`-th number as written, or 0 when absent. */
  predicate FieldRead(numbers: seq<string>, i: nat, v: nat) {
    if i < |numbers| then ParseU32(numbers[i]) == Some(v) else v == 0
  }

  predicate HmsFits(hms: HMS) {
    hms.0 <= U32_MAX && hms.1 <= U32_MAX && hms.2 <= U32_MAX
  }

  /** The am/pm word of a match, when there is one. */
  function ReadAmPm(text: Option<string>): (r: Result<Option<AmPm>, ParseError>)
    ensures r.Success? <==> (text.Some? ==> AmOrPmFrom(text.value).Success?)
    ensures r.Success? ==> (r.value.Some? <==> text.Some?)
                           && (text.Some? ==> AmOrPmFrom(text.value) == Success(r.value.value))
    ensures r.Failure? ==> r.error == UnknownAMPM(text.value)
  {
    match text
    case None => Success(None)
    case Some(t) =>
      var a :- AmOrPmFrom(t);
      Success(Some(a))
  }

  /** The arm bodies of `parse_time_hms`: each number read as a `u32`, then
      the am/pm word. The first failure is the one reported. */
  function ReadHms(p: HmsMatch): (r: Result<TimeClue, ParseError>)
    requires 1 <= |p.numbers| <= 3
    ensures r.Success? ==> r.value.Time? && HmsFits(r.value.hms)
  {
    var h :- ReadU32(p.numbers[0]);
    var m :- if |p.numbers| >= 2 then ReadU32(p.numbers[1]) else Success(0);
    var s :- if |p.numbers| == 3 then ReadU32(p.numbers[2]) else Success(0);
    var ampm :- ReadAmPm(p.ampm);
    Success(TimeClue.Time((h, m, s), ampm))
  }
  /** Each field is the number as written, or 0 when absent; the read fails
      exactly when a number or the am/pm word does, and a bad number is
      reported before a bad am/pm word. */
  lemma {:induction false} ReadHmsSpec(p: HmsMatch)
    requires 1 <= |p.numbers| <= 3
    ensures var r := ReadHms(p);
            && (r.Success? <==> (forall i :: 0 <= i < |p.numbers| ==> ParseU32(p.numbers[i]).Some?)
                                && ReadAmPm(p.ampm).Success?)
            && (r.Success? ==> r.value.ampm == ReadAmPm(p.ampm).value
                               && FieldRead(p.numbers, 0, r.value.hms.0) && FieldRead(p.numbers, 1, r.value.hms.1)
                               && FieldRead(p.numbers, 2, r.value.hms.2))
            && ((exists i :: 0 <= i < |p.numbers| && ParseU32(p.numbers[i]).None?) ==> r == Failure(ParseInt))
            && (r.Failure? ==> r.error == ParseInt || (p.ampm.Some? && r.error == UnknownAMPM(p.ampm.value)))
            && ((forall i :: 0 <= i < |p.numbers| ==> ParseU32(p.numbers[i]).Some?)
                && p.ampm.Some? && AmOrPmFrom(p.ampm.value).Failure?
                ==> r == Failure(UnknownAMPM(p.ampm.value)))
  {
  }


  /** `parse_time_hms`: the pattern, then its arm. */
  function ParseTimeHms(toks: seq<Token>): (r: Result<TimeClue, ParseError>)
    ensures r.Success? ==> r.value.Time? && HmsFits(r.value.hms)
  {
    match MatchHms(toks)
    case None => Failure(UnexpectedNonMatchingPattern)
    case Some(p) => ReadHms(p)
  }

  /** `parse_time_hms` in full: any shape but the six patterns is
      `UnexpectedNonMatchingPattern`, which no pattern's arm reports; a
      pattern's hour, minute and second are its numbers as written (0 when
      absent), with no range check, and its am/pm is present exactly when the
      tokens end in one. A number that is not a `u32` is `ParseInt`. */
  lemma {:induction false} ParseTimeHmsSpec(toks: seq<Token>)
    ensures ParseTimeHms(toks) == Failure(UnexpectedNonMatchingPattern) <==> !HmsShape(toks)
    ensures var r := ParseTimeHms(toks);
            r.Success? ==> (r.value.ampm.Some? <==> HasAmPm(toks))
                           && FieldRead(Texts(toks, HmsCount(toks)), 0, r.value.hms.0)
                           && FieldRead(Texts(toks, HmsCount(toks)), 1, r.value.hms.1)
                           && FieldRead(Texts(toks, HmsCount(toks)), 2, r.value.hms.2)
    ensures HmsShape(toks) && (exists i :: 0 <= i < HmsCount(toks) && ParseU32(toks[i].1).None?)
            ==> ParseTimeHms(toks) == Failure(ParseInt)
    ensures HmsShape(toks) && (forall i :: 0 <= i < HmsCount(toks) ==> ParseU32(toks[i].1).Some?)
            && HasAmPm(toks) && AmOrPmFrom(toks[|toks| - 1].1).Failure?
            ==> ParseTimeHms(toks) == Failure(UnknownAMPM(toks[|toks| - 1].1))
    ensures HmsShape(toks) && (forall i :: 0 <= i < HmsCount(toks) ==> ParseU32(toks[i].1).Some?)
            && (HasAmPm(toks) ==> AmOrPmFrom(toks[|toks| - 1].1).Success?)
            ==> ParseTimeHms(toks).Success?
    ensures var r := ParseTimeHms(toks);
            r.Failure? ==> r.error == UnexpectedNonMatchingPattern || r.error == ParseInt
                           || (HasAmPm(toks) && r.error == UnknownAMPM(toks[|toks| - 1].1))
  {
    MatchHmsShape(toks);
    if HmsShape(toks) {
      MatchHmsBinds(toks);
      var p := MatchHms(toks).value;
      ReadHmsSpec(p);
      assert forall i :: 0 <= i < |p.numbers| ==> p.numbers[i] == toks[i].1;
    }
  }

  /** The optional time part of a day-at phrase: the time read, with its am/pm. */
  function TimePart(toks: seq<Token>): (r: Result<(Option<HMS>, Option<AmPm>), ParseError>)
    ensures r.Success? <==> ParseTimeHms(toks).Success?
    ensures r.Success? ==> r.value == (Some(ParseTimeHms(toks).value.hms), ParseTimeHms(toks).value.ampm)
    ensures r.Failure? ==> r.error == ParseTimeHms(toks).error
  {
    var clue :- ParseTimeHms(toks);
    match clue
    case Time(hms, ampm) => Success((Some(hms), ampm))
    case _ => Success((None, None))
  }

  /** A time written out with its canonical numbers. */
  function CanonicalTime(hms: HMS, ampm: Option<AmPm>): HmsMatch {
    HmsMatch([Decimal(hms.0), Decimal(hms.1), Decimal(hms.2)],
             match ampm case Some(a) => Some(AmPmName(a)) case None => None)
  }

  /** A time written out in full is read back, with its am/pm. */
  lemma {:induction false} ParseCanonicalTime(hms: HMS, ampm: Option<AmPm>)
    requires HmsFits(hms)
    ensures ParseTimeHms(HmsTokens(CanonicalTime(hms, ampm))) == Success(TimeClue.Time(hms, ampm))
  {
    var p := CanonicalTime(hms, ampm);
    MatchHmsTokens(p);
    ParseUnsignedDecimal(hms.0, U32_MAX);
    ParseUnsignedDecimal(hms.1, U32_MAX);
    ParseUnsignedDecimal(hms.2, U32_MAX);
  }

  /** A scan of tokens ending in `hms am_or_pm` takes the same numbers
      without the `am_or_pm`. */
  lemma {:induction false} ScanHmsDropAmPm(numbers: seq<string>, toks: seq<Token>)
    requires |numbers| <= 3
    requires |toks| >= 2 && toks[|toks| - 2].0 == Rule.Hms && toks[|toks| - 1].0 == Rule.AmOrPm
    ensures var r, r' := ScanHms(numbers, toks), ScanHms(numbers, toks[..|toks| - 1]);
            r.Some? == r'.Some? && (r.Some? ==> r.value.numbers == r'.value.numbers && r'.value.ampm.None?
                                                && r.value.ampm == Some(toks[|toks| - 1].1))
    decreases |toks|
  {
    var toks' := toks[..|toks| - 1];
    if toks[0].0 == Rule.Hms && |numbers| < 3 {
      assert toks'[0] == toks[0] && toks'[1..] == toks[1..][..|toks| - 2];
      if |toks| > 2 {
        ScanHmsDropAmPm(numbers + [toks[0].1], toks[1..]);
      }
    }
  }

  /** Removing a valid trailing am/pm changes neither the outcome nor the numbers read. */
  lemma {:induction false} DropAmPm(time: seq<Token>)
    requires |time| >= 2 && time[|time| - 2].0 == Rule.Hms && time[|time| - 1].0 == Rule.AmOrPm
    requires AmOrPmFrom(time[|time| - 1].1).Success?
    ensures var time' := time[..|time| - 1];
            ParseTimeHms(time).Success? == ParseTimeHms(time').Success?
            && (ParseTimeHms(time).Failure? ==> ParseTimeHms(time).error == ParseTimeHms(time').error)
            && (ParseTimeHms(time).Success? ==> ParseTimeHms(time).value.hms == ParseTimeHms(time').value.hms)
  {
    ScanHmsDropAmPm([], time);
  }

  // ---------------------------------------------------------------------
  // The day-at family: the inner match over the tokens after `mday`

  /** The six patterns of the inner match, with the texts they bind. */
  datatype DayMatch =
    | ModWeekdayTime(m: string, w: string, time: seq<Token>)
    | ModWeekday(m: string, w: string)
    | WeekdayAlone(w: string)
    | WeekdayTime(w: string, time: seq<Token>)
    | ShortcutTime(d: string, time: seq<Token>)
    | ShortcutAlone(d: string)

  /** The tokens of a match; the `time` token's own text is never read. */
  function DayTokens(p: DayMatch): seq<Token> {
    match p
    case ModWeekdayTime(m, w, time) => [(Rule.Modifier, m), (Rule.Weekday, w), (Rule.Time, "")] + time
    case ModWeekday(m, w) => [(Rule.Modifier, m), (Rule.Weekday, w)]
    case WeekdayAlone(w) => [(Rule.Weekday, w)]
    case WeekdayTime(w, time) => [(Rule.Weekday, w), (Rule.Time, "")] + time
    case ShortcutTime(d, time) => [(Rule.ShortcutDay, d), (Rule.Time, "")] + time
    case ShortcutAlone(d) => [(Rule.ShortcutDay, d)]
  }

  /** The structural half of the inner match: the first pattern, in source
      order, that the tokens fit. */
  function MatchDay(mday: seq<Token>): (r: Option<DayMatch>)
    ensures r.Some? ==> |DayTokens(r.value)| == |mday|
                        && forall i :: 0 <= i < |mday| && mday[i].0 != Rule.Time ==> DayTokens(r.value)[i] == mday[i]
    ensures r.Some? ==> forall i :: 0 <= i < |mday| ==> DayTokens(r.value)[i].0 == mday[i].0
  {
    if |mday| >= 3 && mday[0].0 == Rule.Modifier && mday[1].0 == Rule.Weekday && mday[2].0 == Rule.Time then
      Some(ModWeekdayTime(mday[0].1, mday[1].1, mday[3..]))
    else if |mday| == 2 && mday[0].0 == Rule.Modifier && mday[1].0 == Rule.Weekday then
      Some(ModWeekday(mday[0].1, mday[1].1))
    else if |mday| == 1 && mday[0].0 == Rule.Weekday then
      Some(WeekdayAlone(mday[0].1))
    else if |mday| >= 2 && mday[0].0 == Rule.Weekday && mday[1].0 == Rule.Time then
      Some(WeekdayTime(mday[0].1, mday[2..]))
    else if |mday| >= 2 && mday[0].0 == Rule.ShortcutDay && mday[1].0 == Rule.Time then
      Some(ShortcutTime(mday[0].1, mday[2..]))
    else if |mday| == 1 && mday[0].0 == Rule.ShortcutDay then
      Some(ShortcutAlone(mday[0].1))
    else
      None
  }

  /** The tokens of every match fit that match and no earlier one. */
  lemma {:induction false} MatchDayTokens(p: DayMatch)
    ensures MatchDay(DayTokens(p)) == Some(p)
  {
    var toks := DayTokens(p);
    match p
    case ModWeekdayTime(m, w, time) => assert toks[3..] == time;
    case WeekdayTime(w, time) => assert toks[2..] == time;
    case ShortcutTime(d, time) => assert toks[2..] == time;
    case _ =>
  }

  /** The time part of a match, when it has one, reads as a time. */
  predicate TimePartReads(p: DayMatch) {
    (p.ModWeekdayTime? || p.WeekdayTime? || p.ShortcutTime?) ==> ParseTimeHms(p.time).Success?
  }

  /** The arm bodies of the inner match: the time part, when there is one, is
      read before the words, and the modifier before the weekday. Each word
      is the recogniser's reading of its text, and an unknown word fails
      with the error that names it. */
  function BuildDay(p: DayMatch): (r: Result<TimeClue, ParseError>)
    ensures r.Success? ==> Producible(r.value)
    ensures r.Success? ==> (r.value.RelativeDayAt? <==> p.ModWeekdayTime? || p.ModWeekday?)
    ensures r.Success? ==> (r.value.SameWeekDayAt? <==> p.WeekdayAlone? || p.WeekdayTime?)
    ensures r.Success? ==> (r.value.ShortcutDayAt? <==> p.ShortcutTime? || p.ShortcutAlone?)
    ensures r.Success? && (p.ModWeekdayTime? || p.WeekdayTime? || p.ShortcutTime?)
            ==> ParseTimeHms(p.time).Success? && r.value.time == Some(ParseTimeHms(p.time).value.hms)
                && r.value.ampmMaybe == ParseTimeHms(p.time).value.ampm
    ensures r.Success? && (p.ModWeekday? || p.WeekdayAlone? || p.ShortcutAlone?)
            ==> r.value.time == None && r.value.ampmMaybe == None
    ensures (p.ModWeekdayTime? || p.WeekdayTime? || p.ShortcutTime?) && ParseTimeHms(p.time).Failure?
            ==> r == Failure(ParseTimeHms(p.time).error)
    ensures p.ModWeekdayTime? || p.ModWeekday? ==>
              (r.Success? <==> TimePartReads(p) && ModifierFrom(p.m).Success? && WeekdayFrom(p.w).Success?)
              && (r.Success? ==> r.value.modifier == ModifierFrom(p.m).value && r.value.weekday == WeekdayFrom(p.w).value)
              && (TimePartReads(p) && ModifierFrom(p.m).Failure? ==> r == Failure(UnknownModifier(p.m)))
              && (TimePartReads(p) && ModifierFrom(p.m).Success? && WeekdayFrom(p.w).Failure?
                  ==> r == Failure(UnknownWeekday(p.w)))
    ensures p.WeekdayAlone? || p.WeekdayTime? ==>
              (r.Success? <==> TimePartReads(p) && WeekdayFrom(p.w).Success?)
              && (r.Success? ==> r.value.weekday == WeekdayFrom(p.w).value)
              && (TimePartReads(p) && WeekdayFrom(p.w).Failure? ==> r == Failure(UnknownWeekday(p.w)))
    ensures p.ShortcutTime? || p.ShortcutAlone? ==>
              (r.Success? <==> TimePartReads(p) && ShortcutDayFrom(p.d).Success?)
              && (r.Success? ==> r.value.shortcut == ShortcutDayFrom(p.d).value)
              && (TimePartReads(p) && ShortcutDayFrom(p.d).Failure? ==> r == Failure(UnknownShortcutDay(p.d)))
  {
    match p
    case ModWeekdayTime(m, w, time) =>
      var t :- TimePart(time);
      var modifier :- ModifierFrom(m);
      var weekday :- WeekdayFrom(w);
      Success(TimeClue.RelativeDayAt(modifier, weekday, t.0, t.1))
    case ModWeekday(m, w) =>
      var modifier :- ModifierFrom(m);
      var weekday :- WeekdayFrom(w);
      Success(TimeClue.RelativeDayAt(modifier, weekday, None, None))
    case WeekdayAlone(w) =>
      var weekday :- WeekdayFrom(w);
      Success(TimeClue.SameWeekDayAt(weekday, None, None))
    case WeekdayTime(w, time) =>
      var t :- TimePart(time);
      var weekday :- WeekdayFrom(w);
      Success(TimeClue.SameWeekDayAt(weekday, t.0, t.1))
    case ShortcutTime(d, time) =>
      var t :- TimePart(time);
      var shortcut :- ShortcutDayFrom(d);
      Success(TimeClue.ShortcutDayAt(shortcut, t.0, t.1))
    case ShortcutAlone(d) =>
      var shortcut :- ShortcutDayFrom(d);
      Success(TimeClue.ShortcutDayAt(shortcut, None, None))
  }

  /** The inner match of the day-at family. */
  function ParseDayAt(mday: seq<Token>): (r: Result<TimeClue, ParseError>)
    ensures MatchDay(mday).None? ==> r == Failure(UnexpectedNonMatchingPattern)
    ensures r.Success? ==> Producible(r.value) && FormMatches(Rule.DayAt, r.value)
  {
    match MatchDay(mday)
    case None => Failure(UnexpectedNonMatchingPattern)
    case Some(p) => BuildDay(p)
  }

  // ---------------------------------------------------------------------
  // Whole sequences

  /** Every phrase's sequence starts with `time_clue` and ends with `EOI`. */
  predicate Framed(toks: seq<Token>) {
    |toks| >= 2 && toks[0].0 == Rule.TimeClue && toks[|toks| - 1].0 == Rule.EOI
  }

  /** The patterns of the outer match, with the texts and sub-sequences they
      bind. The `relative` and `relative_future` patterns are the same but for
      the rule and the clue they build, told apart by `future`. */
  datatype ClueMatch =
    | NowForm
    | TimeForm(time: seq<Token>)
    | RelativeForm(future: bool, count: string, unit: string)
    | DayAtForm(mday: seq<Token>)
    | IsoForm(year: string, month: string, day: string, time: seq<Token>)
    | DateForm(day: string, month: string, year: string)

  /** The rule after `time_clue` in a pattern. */
  function FormRule(p: ClueMatch): Rule {
    match p
    case NowForm => Rule.Now
    case TimeForm(_) => Rule.Time
    case RelativeForm(future, _, _) => if future then Rule.RelativeFuture else Rule.Relative
    case DayAtForm(_) => Rule.DayAt
    case IsoForm(_, _, _, _) => Rule.Iso
    case DateForm(_, _, _) => Rule.Date
  }

  /** The tokens between the form rule and `EOI`. */
  function FormBody(p: ClueMatch): seq<Token> {
    match p
    case NowForm => []
    case TimeForm(time) => time
    case RelativeForm(_, count, unit) => [(Rule.Int, count), (Rule.Quantifier, unit)]
    case DayAtForm(mday) => [(Rule.MDay, "")] + mday
    case IsoForm(y, m, d, time) => [(Rule.Year, y), (Rule.Month, m), (Rule.Day, d)] + time
    case DateForm(d, m, y) => [(Rule.Day, d), (Rule.Month, m), (Rule.Year, y)]
  }

  /** The whole sequence of a pattern; the texts of the rules the parser
      never reads are left empty. */
  function ClueTokens(p: ClueMatch): seq<Token> {
    [(Rule.TimeClue, ""), (FormRule(p), "")] + FormBody(p) + [(Rule.EOI, "")]
  }

  /** The structural half of `parse_time_clue`: every pattern is framed by
      `time_clue` and `EOI`, and the patterns differ in the rule right after
      `time_clue`, so the frame is checked once and the form rule decides. */
  function MatchClue(toks: seq<Token>): (r: Option<ClueMatch>)
    ensures r.Some? ==> Framed(toks) && |toks| >= 3 && toks[1].0 == FormRule(r.value)
    ensures r.Some? && !r.value.DayAtForm? ==> FormBody(r.value) == toks[2..|toks| - 1]
    ensures r.Some? && r.value.DayAtForm? ==> toks[2].0 == Rule.MDay && r.value.mday == toks[3..|toks| - 1]
  {
    if !Framed(toks) || |toks| < 3 then None
    else
      var form, rest := toks[1].0, toks[2..|toks| - 1];
      if form == Rule.Now then
        if rest == [] then Some(NowForm) else None
      else if form == Rule.Time then
        Some(TimeForm(rest))
      else if form == Rule.Relative || form == Rule.RelativeFuture then
        if |rest| == 2 && rest[0].0 == Rule.Int && rest[1].0 == Rule.Quantifier then
          Some(RelativeForm(form == Rule.RelativeFuture, rest[0].1, rest[1].1))
        else None
      else if form == Rule.DayAt then
        if |rest| >= 1 && rest[0].0 == Rule.MDay then Some(DayAtForm(rest[1..])) else None
      else if form == Rule.Iso then
        if |rest| >= 3 && rest[0].0 == Rule.Year && rest[1].0 == Rule.Month && rest[2].0 == Rule.Day then
          Some(IsoForm(rest[0].1, rest[1].1, rest[2].1, rest[3..]))
        else None
      else if form == Rule.Date then
        if |rest| == 3 && rest[0].0 == Rule.Day && rest[1].0 == Rule.Month && rest[2].0 == Rule.Year then
          Some(DateForm(rest[0].1, rest[1].1, rest[2].1))
        else None
      else None
  }

  /** The tokens of every pattern match that pattern. */
  lemma {:induction false} MatchClueTokens(p: ClueMatch)
    ensures MatchClue(ClueTokens(p)) == Some(p)
  {
    var toks := ClueTokens(p);
    assert toks[2..|toks| - 1] == FormBody(p);
    match p
    case DayAtForm(mday) => assert FormBody(p)[1..] == mday;
    case IsoForm(_, _, _, time) => assert FormBody(p)[3..] == time;
    case _ =>
  }

  /** A clue the parser can produce: every number fits the type it is read as,
      and a day-at clue has an am/pm only when it has a time. */
  predicate Producible(c: TimeClue) {
    match c
    case Now => true
    case Time(hms, _) => HmsFits(hms)
    case Relative(n, _) => n <= USIZE_MAX
    case RelativeFuture(n, _) => n <= USIZE_MAX
    case RelativeDayAt(_, _, t, a) => if t.Some? then HmsFits(t.value) else a.None?
    case SameWeekDayAt(_, t, a) => if t.Some? then HmsFits(t.value) else a.None?
    case ShortcutDayAt(_, t, a) => if t.Some? then HmsFits(t.value) else a.None?
    case ISO(ymd, hms) => I32_MIN <= ymd.0 <= I32_MAX && ymd.1 <= U32_MAX && ymd.2 <= U32_MAX && HmsFits(hms)
  }

  /** The rule right after `time_clue` names the family of the clue. */
  predicate FormMatches(rule: Rule, c: TimeClue) {
    match c
    case Now => rule == Rule.Now
    case Time(_, _) => rule == Rule.Time
    case Relative(_, _) => rule == Rule.Relative
    case RelativeFuture(_, _) => rule == Rule.RelativeFuture
    case RelativeDayAt(_, _, _, _) => rule == Rule.DayAt
    case SameWeekDayAt(_, _, _) => rule == Rule.DayAt
    case ShortcutDayAt(_, _, _) => rule == Rule.DayAt
    case ISO(_, hms) => rule == Rule.Iso || (rule == Rule.Date && hms == (0, 0, 0))
  }

  /** The relative arms: the count as a `usize`, then the unit. */
  function BuildRelative(future: bool, count: string, unit: string): (r: Result<TimeClue, ParseError>)
    ensures r.Success? ==> (if future then r.value.RelativeFuture? else r.value.Relative?) && Producible(r.value)
    ensures r.Success? ==> ParseUsize(count) == Some(r.value.count) && QuantifierFrom(unit) == Success(r.value.quantifier)
    ensures r.Success? <==> ParseUsize(count).Some? && QuantifierFrom(unit).Success?
    ensures ParseUsize(count).None? ==> r == Failure(ParseInt)
    ensures ParseUsize(count).Some? && QuantifierFrom(unit).Failure? ==> r == Failure(UnknownQuantifier(unit))
  {
    var n :- ReadUsize(count);
    var q :- QuantifierFrom(unit);
    Success(if future then TimeClue.RelativeFuture(n, q) else TimeClue.Relative(n, q))
  }

  /** The date fields, read year first, then month, then day. */
  function ReadDate(y: string, m: string, d: string): (r: Result<YMD, ParseError>)
    ensures r.Success? <==> ParseI32(y).Some? && ParseU32(m).Some? && ParseU32(d).Some?
    ensures r.Success? ==> r.value == (ParseI32(y).value, ParseU32(m).value, ParseU32(d).value)
    ensures r.Failure? ==> r.error == ParseInt
  {
    var year :- ReadI32(y);
    var month :- ReadU32(m);
    var day :- ReadU32(d);
    Success((year, month, day))
  }

  /** The ISO arm: the time part is read first, its am/pm dropped, then the date. */
  function BuildIso(y: string, m: string, d: string, time: seq<Token>): (r: Result<TimeClue, ParseError>)
    ensures ParseTimeHms(time).Failure? ==> r == Failure(ParseTimeHms(time).error)
    ensures r.Success? ==> r.value.ISO? && Producible(r.value) && ParseTimeHms(time).Success? && r.value.hms == ParseTimeHms(time).value.hms
                           && ReadDate(y, m, d) == Success(r.value.ymd)
    ensures ParseTimeHms(time).Success? && ReadDate(y, m, d).Failure? ==> r == Failure(ParseInt)
    ensures ParseTimeHms(time).Success? && ReadDate(y, m, d).Success?
            ==> r == Success(TimeClue.ISO(ReadDate(y, m, d).value, ParseTimeHms(time).value.hms))
  {
    var clue :- ParseTimeHms(time);
    match clue
    case Time(hms, _) =>
      var ymd :- ReadDate(y, m, d);
      Success(ISO(ymd, hms))
    case _ => Failure(UnexpectedNonMatchingPattern)
  }

  /** The family of clue each pattern builds. */
  predicate Builds(p: ClueMatch, c: TimeClue) {
    match p
    case NowForm => c.Now?
    case TimeForm(_) => c.Time?
    case RelativeForm(future, _, _) => if future then c.RelativeFuture? else c.Relative?
    case DayAtForm(_) => c.RelativeDayAt? || c.SameWeekDayAt? || c.ShortcutDayAt?
    case IsoForm(_, _, _, _) => c.ISO?
    case DateForm(_, _, _) => c.ISO? && c.hms == (0, 0, 0)
  }

  /** The arm bodies of `parse_time_clue`. The date-only form yields midnight,
      with the fields reordered to year, month, day. */
  function BuildClue(p: ClueMatch): (r: Result<TimeClue, ParseError>)
    ensures r.Success? ==> Producible(r.value) && Builds(p, r.value)
  {
    match p
    case NowForm => Success(TimeClue.Now)
    case TimeForm(time) => ParseTimeHms(time)
    case RelativeForm(future, count, unit) => BuildRelative(future, count, unit)
    case DayAtForm(mday) => ParseDayAt(mday)
    case IsoForm(y, m, d, time) => BuildIso(y, m, d, time)
    case DateForm(d, m, y) =>
      var ymd :- ReadDate(y, m, d);
      Success(ISO(ymd, (0, 0, 0)))
  }

  /** `parse_time_clue`: the clue of a whole flattened sequence. */
  function ParseTimeClue(toks: seq<Token>): (r: Result<TimeClue, ParseError>)
    ensures MatchClue(toks).None? ==> r == Failure(UnexpectedNonMatchingPattern)
    ensures !Framed(toks) ==> r == Failure(UnexpectedNonMatchingPattern)
    ensures r.Success? ==> Producible(r.value) && FormMatches(toks[1].0, r.value)
  {
    match MatchClue(toks)
    case None => Failure(UnexpectedNonMatchingPattern)
    case Some(p) => BuildClue(p)
  }

  // ---------------------------------------------------------------------
  // A canonical token sequence for every clue, and what the parser makes of it

  /** The time part of a day-at clue: the `time` rule and the time, if any. */
  function CanonicalDay(c: TimeClue): DayMatch
    requires c.RelativeDayAt? || c.SameWeekDayAt? || c.ShortcutDayAt?
  {
    match c
    case RelativeDayAt(m, w, time, ampm) =>
      if time.Some? then ModWeekdayTime(ModifierName(m), WeekdayName(w), HmsTokens(CanonicalTime(time.value, ampm)))
      else ModWeekday(ModifierName(m), WeekdayName(w))
    case SameWeekDayAt(w, time, ampm) =>
      if time.Some? then WeekdayTime(WeekdayName(w), HmsTokens(CanonicalTime(time.value, ampm)))
      else WeekdayAlone(WeekdayName(w))
    case ShortcutDayAt(d, time, ampm) =>
      if time.Some? then ShortcutTime(ShortcutDayName(d), HmsTokens(CanonicalTime(time.value, ampm)))
      else ShortcutAlone(ShortcutDayName(d))
  }

  /** Every clue written out with canonical numbers and the first spelling of
      every word: the date-only form is never chosen, an ISO clue is written
      with its time. */
  function CanonicalClue(c: TimeClue): ClueMatch {
    match c
    case Now => NowForm
    case Time(hms, ampm) => TimeForm(HmsTokens(CanonicalTime(hms, ampm)))
    case Relative(n, q) => RelativeForm(false, Decimal(n), QuantifierName(q))
    case RelativeFuture(n, q) => RelativeForm(true, Decimal(n), QuantifierName(q))
    case RelativeDayAt(_, _, _, _) => DayAtForm(DayTokens(CanonicalDay(c)))
    case SameWeekDayAt(_, _, _) => DayAtForm(DayTokens(CanonicalDay(c)))
    case ShortcutDayAt(_, _, _) => DayAtForm(DayTokens(CanonicalDay(c)))
    case ISO(ymd, hms) =>
      IsoForm(SignedDecimal(ymd.0), Decimal(ymd.1), Decimal(ymd.2), HmsTokens(CanonicalTime(hms, None)))
  }

  function Render(c: TimeClue): seq<Token> {
    ClueTokens(CanonicalClue(c))
  }

  // A day-at arm with a time part builds the clue of the words and the time read.

  lemma {:induction false} BuildModWeekdayTime(m: string, w: string, time: seq<Token>, c: TimeClue)
    requires c.RelativeDayAt? && c.time.Some?
    requires ParseTimeHms(time) == Success(TimeClue.Time(c.time.value, c.ampmMaybe))
    requires ModifierFrom(m) == Success(c.modifier) && WeekdayFrom(w) == Success(c.weekday)
    ensures BuildDay(ModWeekdayTime(m, w, time)) == Success(c)
  {
  }

  lemma {:induction false} BuildWeekdayTime(w: string, time: seq<Token>, c: TimeClue)
    requires c.SameWeekDayAt? && c.time.Some?
    requires ParseTimeHms(time) == Success(TimeClue.Time(c.time.value, c.ampmMaybe))
    requires WeekdayFrom(w) == Success(c.weekday)
    ensures BuildDay(WeekdayTime(w, time)) == Success(c)
  {
  }

  lemma {:induction false} BuildShortcutTime(d: string, time: seq<Token>, c: TimeClue)
    requires c.ShortcutDayAt? && c.time.Some?
    requires ParseTimeHms(time) == Success(TimeClue.Time(c.time.value, c.ampmMaybe))
    requires ShortcutDayFrom(d) == Success(c.shortcut)
    ensures BuildDay(ShortcutTime(d, time)) == Success(c)
  {
  }

  lemma {:induction false} BuildCanonicalRelativeDayAt(c: TimeClue)
    requires c.RelativeDayAt? && Producible(c)
    ensures BuildDay(CanonicalDay(c)) == Success(c)
  {
    var m, w := ModifierName(c.modifier), WeekdayName(c.weekday);
    ModifierFromSpec(m);
    WeekdayFromSpec(w);
    if c.time.Some? {
      ParseCanonicalTime(c.time.value, c.ampmMaybe);
      BuildModWeekdayTime(m, w, HmsTokens(CanonicalTime(c.time.value, c.ampmMaybe)), c);
    }
  }

  lemma {:induction false} BuildCanonicalSameWeekDayAt(c: TimeClue)
    requires c.SameWeekDayAt? && Producible(c)
    ensures BuildDay(CanonicalDay(c)) == Success(c)
  {
    var w := WeekdayName(c.weekday);
    WeekdayFromSpec(w);
    if c.time.Some? {
      ParseCanonicalTime(c.time.value, c.ampmMaybe);
      BuildWeekdayTime(w, HmsTokens(CanonicalTime(c.time.value, c.ampmMaybe)), c);
    }
  }

  lemma {:induction false} BuildCanonicalShortcutDayAt(c: TimeClue)
    requires c.ShortcutDayAt? && Producible(c)
    ensures BuildDay(CanonicalDay(c)) == Success(c)
  {
    var d := ShortcutDayName(c.shortcut);
    ShortcutDayFromSpec(d);
    if c.time.Some? {
      ParseCanonicalTime(c.time.value, c.ampmMaybe);
      BuildShortcutTime(d, HmsTokens(CanonicalTime(c.time.value, c.ampmMaybe)), c);
    }
  }

  lemma {:induction false} BuildCanonicalRelative(c: TimeClue)
    requires (c.Relative? || c.RelativeFuture?) && Producible(c)
    ensures BuildClue(CanonicalClue(c)) == Success(c)
  {
    ParseUnsignedDecimal(c.count, USIZE_MAX);
    QuantifierFromSpec(QuantifierName(c.quantifier));
  }

  lemma {:induction false} BuildCanonicalDayAt(c: TimeClue)
    requires (c.RelativeDayAt? || c.SameWeekDayAt? || c.ShortcutDayAt?) && Producible(c)
    ensures BuildClue(CanonicalClue(c)) == Success(c)
  {
    MatchDayTokens(CanonicalDay(c));
    if c.RelativeDayAt? {
      BuildCanonicalRelativeDayAt(c);
    } else if c.SameWeekDayAt? {
      BuildCanonicalSameWeekDayAt(c);
    } else {
      BuildCanonicalShortcutDayAt(c);
    }
  }

  /** A date written with canonical numbers is read back. */
  lemma {:induction false} ReadCanonicalDate(ymd: YMD)
    requires I32_MIN <= ymd.0 <= I32_MAX && ymd.1 <= U32_MAX && ymd.2 <= U32_MAX
    ensures ReadDate(SignedDecimal(ymd.0), Decimal(ymd.1), Decimal(ymd.2)) == Success(ymd)
  {
    ParseSignedDecimal(ymd.0, I32_MIN, I32_MAX);
    ParseUnsignedDecimal(ymd.1, U32_MAX);
    ParseUnsignedDecimal(ymd.2, U32_MAX);
  }

  lemma {:induction false} BuildIsoOf(y: string, m: string, d: string, time: seq<Token>, c: TimeClue)
    requires c.ISO? && ParseTimeHms(time) == Success(TimeClue.Time(c.hms, None)) && ReadDate(y, m, d) == Success(c.ymd)
    ensures BuildClue(IsoForm(y, m, d, time)) == Success(c)
  {
  }

  lemma {:induction false} BuildCanonicalIso(c: TimeClue)
    requires c.ISO? && Producible(c)
    ensures BuildClue(CanonicalClue(c)) == Success(c)
  {
    ParseCanonicalTime(c.hms, None);
    ReadCanonicalDate(c.ymd);
    BuildIsoOf(SignedDecimal(c.ymd.0), Decimal(c.ymd.1), Decimal(c.ymd.2), HmsTokens(CanonicalTime(c.hms, None)), c);
  }

  lemma {:induction false} BuildCanonicalClue(c: TimeClue)
    requires Producible(c)
    ensures BuildClue(CanonicalClue(c)) == Success(c)
  {
    if c.Time? {
      ParseCanonicalTime(c.hms, c.ampm);
    } else if c.Relative? || c.RelativeFuture? {
      BuildCanonicalRelative(c);
    } else if c.RelativeDayAt? || c.SameWeekDayAt? || c.ShortcutDayAt? {
      BuildCanonicalDayAt(c);
    } else if c.ISO? {
      BuildCanonicalIso(c);
    }
  }

  /** Every clue the parser can produce is produced, from its canonical tokens.
      With the postcondition of `ParseTimeClue`, the clues the parser produces
      are exactly the producible ones. */
  lemma {:induction false} ParseRender(c: TimeClue)
    requires Producible(c)
    ensures ParseTimeClue(Render(c)) == Success(c)
  {
    MatchClueTokens(CanonicalClue(c));
    BuildCanonicalClue(c);
  }

  // ---------------------------------------------------------------------
  // Date forms, error order

  /** The date-only form reads year, month and day (in that order, from the
      last token to the first), and yields the date at midnight. */
  lemma {:induction false} DateFormReorders(toks: seq<Token>)
    requires |toks| == 6 && toks[0].0 == Rule.TimeClue && toks[1].0 == Rule.Date && toks[2].0 == Rule.Day
    requires toks[3].0 == Rule.Month && toks[4].0 == Rule.Year && toks[5].0 == Rule.EOI
    ensures var y, m, d := ParseI32(toks[4].1), ParseU32(toks[3].1), ParseU32(toks[2].1);
            ParseTimeClue(toks)
            == if y.Some? && m.Some? && d.Some? then Success(TimeClue.ISO((y.value, m.value, d.value), (0, 0, 0)))
               else Failure(ParseInt)
  {
    assert MatchClue(toks) == Some(DateForm(toks[2].1, toks[3].1, toks[4].1));
  }

  /** The ISO pattern binds the three date texts and the time part. */
  lemma {:induction false} MatchIsoForm(toks: seq<Token>)
    requires Framed(toks) && |toks| >= 6 && toks[1].0 == Rule.Iso
    requires toks[2].0 == Rule.Year && toks[3].0 == Rule.Month && toks[4].0 == Rule.Day
    ensures MatchClue(toks) == Some(IsoForm(toks[2].1, toks[3].1, toks[4].1, toks[5..|toks| - 1]))
  {
    assert toks[2..|toks| - 1][3..] == toks[5..|toks| - 1];
  }

  /** The day-at pattern binds everything after `mday`. */
  lemma {:induction false} MatchDayAtForm(toks: seq<Token>)
    requires Framed(toks) && |toks| >= 4 && toks[1].0 == Rule.DayAt && toks[2].0 == Rule.MDay
    ensures MatchClue(toks) == Some(DayAtForm(toks[3..|toks| - 1]))
  {
    assert toks[2..|toks| - 1][1..] == toks[3..|toks| - 1];
  }

  /** The time arm hands everything between `time` and `EOI` to the
      time-of-day reader, so its errors are the clue's errors. */
  lemma {:induction false} ParseTimeForm(toks: seq<Token>)
    requires Framed(toks) && |toks| >= 3 && toks[1].0 == Rule.Time
    ensures ParseTimeClue(toks) == ParseTimeHms(toks[2..|toks| - 1])
  {
    assert MatchClue(toks) == Some(TimeForm(toks[2..|toks| - 1]));
  }

  /** The relative arms read the count and the unit, so their errors are the
      clue's errors. */
  lemma {:induction false} ParseRelativeForm(toks: seq<Token>)
    requires Framed(toks) && |toks| == 5 && (toks[1].0 == Rule.Relative || toks[1].0 == Rule.RelativeFuture)
    requires toks[2].0 == Rule.Int && toks[3].0 == Rule.Quantifier
    ensures ParseTimeClue(toks) == BuildRelative(toks[1].0 == Rule.RelativeFuture, toks[2].1, toks[3].1)
  {
    assert toks[2..|toks| - 1] == [toks[2], toks[3]];
    assert MatchClue(toks) == Some(RelativeForm(toks[1].0 == Rule.RelativeFuture, toks[2].1, toks[3].1));
  }

  lemma {:induction false} ParseIsoForm(toks: seq<Token>)
    requires Framed(toks) && |toks| >= 6 && toks[1].0 == Rule.Iso
    requires toks[2].0 == Rule.Year && toks[3].0 == Rule.Month && toks[4].0 == Rule.Day
    ensures ParseTimeClue(toks) == BuildIso(toks[2].1, toks[3].1, toks[4].1, toks[5..|toks| - 1])
  {
    MatchIsoForm(toks);
  }

  lemma {:induction false} ParseDayAtForm(toks: seq<Token>)
    requires Framed(toks) && |toks| >= 4 && toks[1].0 == Rule.DayAt && toks[2].0 == Rule.MDay
    ensures ParseTimeClue(toks) == ParseDayAt(toks[3..|toks| - 1])
  {
    MatchDayAtForm(toks);
    assert BuildClue(DayAtForm(toks[3..|toks| - 1])) == ParseDayAt(toks[3..|toks| - 1]);
  }

  /** In the ISO arm, a time part differing only in a valid trailing am/pm
      gives the same clue. */
  lemma {:induction false} BuildIsoDropsAmPm(y: string, m: string, d: string, time: seq<Token>)
    requires |time| >= 2 && time[|time| - 2].0 == Rule.Hms && time[|time| - 1].0 == Rule.AmOrPm
    requires AmOrPmFrom(time[|time| - 1].1).Success?
    ensures BuildIso(y, m, d, time) == BuildIso(y, m, d, time[..|time| - 1])
  {
    DropAmPm(time);
  }

  /** The tokens after `day` in the ISO form are a time of day, whose am/pm,
      when valid, is dropped: the clue is the one without it. */
  lemma {:induction false} IsoIgnoresAmPm(toks: seq<Token>)
    requires Framed(toks) && |toks| >= 7
    requires toks[1].0 == Rule.Iso && toks[2].0 == Rule.Year && toks[3].0 == Rule.Month && toks[4].0 == Rule.Day
    requires toks[|toks| - 3].0 == Rule.Hms && toks[|toks| - 2].0 == Rule.AmOrPm
    requires AmOrPmFrom(toks[|toks| - 2].1).Success?
    ensures ParseTimeClue(toks) == ParseTimeClue(toks[..|toks| - 2] + [toks[|toks| - 1]])
  {
    var without := toks[..|toks| - 2] + [toks[|toks| - 1]];
    var time := toks[5..|toks| - 1];
    assert without[5..|without| - 1] == time[..|time| - 1];
    MatchIsoForm(toks);
    MatchIsoForm(without);
    BuildIsoDropsAmPm(toks[2].1, toks[3].1, toks[4].1, time);
  }

  /** Where the time part of a phrase starts: after `modifier weekday time` or
      `weekday time` or `shortcut_day time` in the day-at forms, after
      `year month day` in the ISO form. */
  function TimePartStart(toks: seq<Token>): (k: Option<nat>)
    ensures k.Some? ==> 5 <= k.value <= |toks| - 1
  {
    if !Framed(toks) then None
    else if |toks| >= 7 && toks[1].0 == Rule.DayAt && toks[2].0 == Rule.MDay && toks[3].0 == Rule.Modifier
            && toks[4].0 == Rule.Weekday && toks[5].0 == Rule.Time then Some(6)
    else if |toks| >= 6 && toks[1].0 == Rule.DayAt && toks[2].0 == Rule.MDay
            && (toks[3].0 == Rule.Weekday || toks[3].0 == Rule.ShortcutDay) && toks[4].0 == Rule.Time then Some(5)
    else if |toks| >= 6 && toks[1].0 == Rule.Iso && toks[2].0 == Rule.Year && toks[3].0 == Rule.Month
            && toks[4].0 == Rule.Day then Some(5)
    else None
  }

  /** In the day-at patterns with a time part, the tokens after the `time`
      rule are that time part. */
  lemma {:induction false} DayTimePart(mday: seq<Token>, k: nat)
    requires k == 3 ==> |mday| >= 3 && mday[0].0 == Rule.Modifier && mday[1].0 == Rule.Weekday && mday[2].0 == Rule.Time
    requires k == 2 ==> |mday| >= 2 && (mday[0].0 == Rule.Weekday || mday[0].0 == Rule.ShortcutDay) && mday[1].0 == Rule.Time
    requires k == 2 || k == 3
    ensures MatchDay(mday).Some? && MatchDay(mday).value.time == mday[k..]
  {
  }

  lemma {:induction false} DayTimeErrorsFirst(mday: seq<Token>, k: nat)
    requires k == 3 ==> |mday| >= 3 && mday[0].0 == Rule.Modifier && mday[1].0 == Rule.Weekday && mday[2].0 == Rule.Time
    requires k == 2 ==> |mday| >= 2 && (mday[0].0 == Rule.Weekday || mday[0].0 == Rule.ShortcutDay) && mday[1].0 == Rule.Time
    requires k == 2 || k == 3
    ensures ParseTimeHms(mday[k..]).Failure? ==> ParseDayAt(mday) == Failure(ParseTimeHms(mday[k..]).error)
  {
    DayTimePart(mday, k);
  }

  /** In every form with a time part, an error in the time part is the one
      reported, whatever the modifier, weekday, shortcut day or date tokens hold. */
  lemma {:induction false} TimeErrorsFirst(toks: seq<Token>)
    requires TimePartStart(toks).Some?
    ensures var time := ParseTimeHms(toks[TimePartStart(toks).value..|toks| - 1]);
            time.Failure? ==> ParseTimeClue(toks) == Failure(time.error)
  {
    var k := TimePartStart(toks).value;
    if toks[1].0 == Rule.DayAt {
      ParseDayAtForm(toks);
      var mday := toks[3..|toks| - 1];
      DayTimeErrorsFirst(mday, k - 3);
      assert mday[k - 3..] == toks[k..|toks| - 1];
    } else {
      ParseIsoForm(toks);
    }
  }
}
