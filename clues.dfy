/** The values the parser produces: a time clue describes what kind of time
    expression the phrase was, with its numbers exactly as written (hour,
    minute and second are not range-checked until evaluation). */
module Clues {
  import opened Wrappers

  datatype Weekday = Monday | Tuesday | Wednesday | Thursday | Friday | Saturday | Sunday {

    /** Days since the Monday of the same week (Monday is 0, Sunday 6). */
    function Index(): (i: nat)
      ensures i < 7
    {
      match this
      case Monday => 0
      case Tuesday => 1
      case Wednesday => 2
      case Thursday => 3
      case Friday => 4
      case Saturday => 5
      case Sunday => 6
    }
  }

  datatype AmPm = AM | PM

  datatype ShortcutDay = Today | Yesterday | Tomorrow

  datatype Modifier = Last | Next

  datatype Quantifier = Min | Hours | Days | Weeks | Months

  /** Hour, minute and second, each a `u32` as written. */
  type HMS = (nat, nat, nat)

  /** Year (`i32`), month and day (`u32`), as written. */
  type YMD = (int, nat, nat)

  datatype TimeClue =
    | Now
      /** "19:43:42", "8", "7pm" */
    | Time(hms: HMS, ampm: Option<AmPm>)
      /** "4 minutes ago" */
    | Relative(count: nat, quantifier: Quantifier)
      /** "last friday at 12" */
    | RelativeDayAt(modifier: Modifier, weekday: Weekday, time: Option<HMS>, ampmMaybe: Option<AmPm>)
      /** "in 4 minutes" */
    | RelativeFuture(count: nat, quantifier: Quantifier)
      /** "monday at 4" */
    | SameWeekDayAt(weekday: Weekday, time: Option<HMS>, ampmMaybe: Option<AmPm>)
      /** "yesterday at 4", "tomorrow" */
    | ShortcutDayAt(shortcut: ShortcutDay, time: Option<HMS>, ampmMaybe: Option<AmPm>)
      /** "2020-12-25T19:43:00", "25/12/2020" */
    | ISO(ymd: YMD, hms: HMS)

  /** Why a token sequence is not a time clue. A malformed integer is
      `ParseInt`; the kind of integer error is not kept. */
  datatype ParseError =
    | ParseInt
    | UnexpectedNonMatchingPattern
    | UnknownWeekday(text: string)
    | UnknownShortcutDay(text: string)
    | UnknownModifier(text: string)
    | UnknownQuantifier(text: string)
    | UnknownAMPM(text: string)
}
