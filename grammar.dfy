/** The parser's input: the rule tree the grammar produces for a phrase,
    flattened in pre-order into a sequence of (rule, matched text) pairs.
    Only the rules the parser looks at are named; `Other` stands for any
    other rule of the grammar. */
module Grammar {

  datatype Rule =
    | TimeClue
    | Now
    | Time
    | Hms
    | AmOrPm
    | Relative
    | RelativeFuture
    | Int
    | Quantifier
    | DayAt
    | MDay
    | Modifier
    | Weekday
    | ShortcutDay
    | Iso
    | Year
    | Month
    | Day
    | Date
    | EOI
    | Other

  type Token = (Rule, string)
}
