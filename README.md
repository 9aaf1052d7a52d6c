# strftime verb translation, modelled in Dafny

The Go package `strftime` turns C `strftime(3)` conversion specifications
(ISO/IEC 9899:2011 section 7.27.3.5, POSIX.1-2017 `strftime()`) into Go's
example-based time layouts. It has one substitution primitive, `parseFormat`,
which it runs twice:

1. With the static table `convSpecs`. Each verb that Go's layout language
   can express becomes a layout fragment. For example, `%Y` becomes `2006`.
2. After Go has rendered the time, with the table `getSecondarySpecs`
   computes from that time. This second pass covers the verbs Go cannot
   express: century, ISO week-year, day of the year, hour, Unix seconds,
   ISO weekday and the two week numbers.

The model has four modules:

- `Decimal` (decimal.dfy) renders integers the way `strconv.Itoa` and
  `fmt.Sprintf("%0Nd")` do. It also models Go's integer division, which
  truncates toward zero. Each rendering has a parser and a round-trip
  lemma, so every contract about rendered text can say which number the
  text denotes.
- `Specifications` (specifications.dfy, modelling specifications.go) holds `ConvSpecs`,
  `MondayWeekday`, `YearWeek`, the computed table `SecondaryTable`, and
  the method `GetSecondarySpecs`. That method builds the table by eleven
  map insertions, as the source does.
- `SpecParser` (specparser.dfy, modelling specparser.go) defines the scanner as a reference
  function `Substitute`. The loop method `ParseFormat` keeps the source's
  index that a match advances twice and its `break` on the last
  character. It is proved equal to `Substitute`, and `SecondaryFormat` is
  proved equal to `Substitute` with the computed table.
- `Format` (format.dfy, modelling format.go) composes the two passes. Go's rendering engine is
  passed in as a function parameter.

The date-time value is a record of numbers already taken from `time.Time`:
year, ISO year and week, day of the year, hour, Unix seconds, weekday
(Sunday = 0) and the weekday of 1 January. The fields' types carry the
ranges the Go accessors guarantee.

Two behaviours of the code are modelled as written and documented by
lemmas:

- The week number differs from the C rule. `yearWeek` computes
  `yearDay / 7`, plus 1 when the start day is not earlier than
  1 January's weekday. The C rule is "the first Sunday (or Monday) starts
  week 1". The two can differ by one in either direction
  (`YearWeekNearStandard`). For example, 6 January 2019 was the first
  Sunday of the year, and the code gives week 0 where the C rule gives
  week 1 (`YearWeekDivergesFromStandard`). The repository's own tests
  expect the code's values, for example 8 for 2 March 2016.
- `%%` does not protect a computed verb. The first pass turns `%%j` into
  `%j`, and the second pass then replaces that with the day of the year
  (`EscapedPercentRescanned`). C `strftime` would print `%j` there.

## Model

| member | source | states |
|---|---|---|
| SpecParser.ParseFormat | specparser.go:8-29 | the loop's output equals the left-to-right, one-character-lookahead substitution for every input and table; every index it reads is in range, including a `%` in the last position |
| SpecParser.Substitute | specparser.go:8-29 | the reference scan: a `%` followed by a key becomes the key's text and consumes both characters; every other character, including a `%` before a non-key or in the last position, is copied; its properties are the lemmas below |
| SpecParser.SecondaryFormat | specparser.go:31-34 | equals the scanner run over the rendered text with the computed table of the value |
| SpecParser.SubstituteNoVerbs | specparser.go:11-27 | text in which no `%` is followed by a key of the table comes out unchanged |
| SpecParser.NoPercentUnchanged | specparser.go:24-26 | an input with no `%` is returned unchanged, character for character |
| SpecParser.EmptyTableUnchanged | specparser.go:21-26 | with an empty table the output equals the input |
| SpecParser.VerbReplaced | specparser.go:17-20 | `%` followed by a key emits that key's text and consumes both characters, so a matched verb is never rescanned |
| SpecParser.UnknownVerbCopied | specparser.go:21-23 | `%` followed by a non-key emits `%`, and the next character is scanned again as the start of the rest |
| SpecParser.SingleVerb | specparser.go:17-20 | for a key `c`, the two-character input `%c` produces exactly the table's text for `c` |
| SpecParser.SubstituteConcat | specparser.go:11-27 | the scan of `a + b` is the scan of `a` followed by the scan of `b` whenever `a` does not end in `%` |
| SpecParser.PlainPrefix | specparser.go:11-27 | a prefix with no `%` is copied ahead of the scan of the rest |
| SpecParser.TrailingPercent | specparser.go:12-15 | a trailing `%` that is not itself preceded by `%` is copied literally |
| SpecParser.StaticVerbTranslated | specifications.go:9-43 | every verb of the static table translates to that verb's Go layout fragment |
| SpecParser.ComputedVerbPassesStaticTable | specifications.go:9-60 | every computed verb passes the static pass unchanged as `%` followed by the verb |
| SpecParser.StaticTableExamples | specparser_test.go:50-265 | `%c` gives `Mon Jan 02 15:04:05 2006`, `%+` gives `Mon Jan 02 15:04:05 MST 2006`, `%%` gives `%` |
| SpecParser.UnknownVerbExamples | specparser.go:17-23 | with the static table, `%q` gives `%q` and `%q%%` gives `%q%` |
| SpecParser.PercentExamples | specparser.go:12-20 | with the static table, `%%Y` gives `%Y` (the matched `%%` is not rescanned) and a lone `%` gives `%` |
| SpecParser.IsoDateTranslated | specifications.go:9-43 | `%Y-%m-%d` translates to the layout `2006-01-02` |
| Specifications.LayoutFragment | specifications.go:9-43 | the Go layout fragment of each of the 31 static verbs, entry by entry as in the source table (the const `ConvSpecs` maps each static verb to it); no fragment is empty, and only the one for `%%` contains a `%`, so the layout itself introduces no verb |
| Specifications.VerbTablesDisjoint | specifications.go:9-60 | no computed verb is a key of the static table |
| Specifications.ComputedText | specifications.go:50-60 | the text inserted for each computed verb; what each one denotes is stated by the Secondary lemmas below |
| Specifications.SecondaryTable | specifications.go:45-62 | the computed table of a value, keyed by the eleven computed verbs (SecondaryTableKeys) |
| Specifications.SecondaryTableKeys | specifications.go:45-62 | the computed table's keys are exactly C, G, g, j, k, s, u, U, V, w and W |
| Specifications.GetSecondarySpecs | specifications.go:45-62 | the eleven successive insertions build exactly the computed table of the value |
| Specifications.SecondaryCentury | specifications.go:50 | `C` is the unpadded (canonical) decimal of the year divided by 100, truncated toward zero |
| Specifications.SecondaryIsoYear | specifications.go:51 | `G` is the canonical, unpadded decimal of the ISO week-numbering year |
| Specifications.SecondaryShortIsoYear | specifications.go:52 | for a four-digit ISO year, `g` is its last two digits |
| Specifications.ShortIsoYearOfFiveDigitYear | specifications.go:52 | beyond four digits the fixed slice from 2 to 4 is not the last two digits: ISO year 12019 gives `01` |
| Specifications.SecondaryYearDay | specifications.go:53 | `j` is exactly 3 digits denoting the day of the year |
| Specifications.SecondarySundayWeek | specifications.go:57 | `U` is exactly 2 digits denoting the Sunday-start week number |
| Specifications.SecondaryMondayWeek | specifications.go:60 | `W` is exactly 2 digits denoting the Monday-start week number |
| Specifications.SecondaryHour | specifications.go:54 | `k` is the canonical, unpadded decimal of the hour, one or two characters |
| Specifications.SecondaryEpochSeconds | specifications.go:55 | `s` is the canonical, unpadded, possibly negative decimal of the Unix seconds |
| Specifications.SecondaryIsoWeekday | specifications.go:56 | `u` is the ISO weekday, 1 to 7, and it is 7 exactly on Sunday |
| Specifications.SecondaryIsoWeek | specifications.go:58 | `V` is the canonical, unpadded decimal of the ISO week, one or two characters |
| Specifications.SecondaryWeekday | specifications.go:59 | `w` is the single digit of the weekday with Sunday = 0 |
| Specifications.MondayWeekdayOf | specifications.go:56 | the map index into the ISO weekday table (the const `MondayWeekday`, specifications.go:64-72), with Go's zero value `""` for a missing key; MondayWeekdayTotal shows that no weekday is missing |
| Specifications.MondayWeekdayTotal | specifications.go:64-72 | the ISO weekday table has an entry for every weekday: Sunday maps to `7` and every other weekday `d` to the decimal of `d` |
| Specifications.YearWeek | specifications.go:74-81 | the week number lies in 0..53 for every day of the year, so its `%02d` rendering is always two characters |
| Specifications.YearWeekNearStandard | specifications.go:74-81 | the code's week number is at most one away from the C standard's rule: ahead of it when the start day is not before 1 January's weekday, behind it otherwise |
| Specifications.YearWeekDivergesFromStandard | specifications.go:77-80 | for 6 January 2019, a Sunday, the code gives week 0 where the C rule gives week 1 |
| Specifications.YearWeekFixtures | specifications_test.go:57-104 | day 59 with 1 January a Tuesday gives 8 (Sunday), 8 (Monday) and 9 (Wednesday); day 2 gives 0 (Sunday); day 1 with 1 January a Monday gives 1 (Monday); day 62 with 1 January a Friday gives 8 (Sunday) |
| Specifications.SecondaryTableFixture | specifications_test.go:19-35 | for 28 February 2019, 00:00 at UTC-4, the table holds g=19, j=059, k=0, s=1551326400, u=4, w=4, C=20, G=2019, U=08, V=9, W=08 |
| Decimal.Itoa | specifications.go:50-59 | `strconv.Itoa`: `-` for a negative number, then the shortest numeral of the magnitude (ItoaRoundTrip, ItoaUnique) |
| Decimal.ItoaRoundTrip | specifications.go:50-59 | the `strconv.Itoa` rendering used for the unpadded verbs is a well-formed decimal that parses back to the number and is canonical: no leading zero and no `-0` |
| Decimal.ItoaUnique | specifications.go:50-59 | conversely, a canonical well-formed decimal is exactly the `strconv.Itoa` rendering of its value, so `Canonical` and the value determine the text |
| Decimal.DigitsUnique | specifications.go:50-59 | a numeral without a leading zero is the shortest numeral of its value |
| Decimal.ZeroPad | specifications.go:53-60 | `fmt.Sprintf("%0Nd")`: the sign, then zeros, then the digits, in the larger of the width and the unpadded length; digits only for a non-negative number |
| Decimal.ZeroPadRoundTrip | specifications.go:53-60 | the `%0Nd` rendering used for `j`, `U` and `W` parses back to the number; its length is the larger of the width and the unpadded length |
| Decimal.TruncDiv | specifications.go:50 | Go's integer division: the quotient's multiple of the divisor lies between zero and the dividend, within one divisor of it |
| Format.Format | format.go:6-11 | formatting is the static pass, then rendering, then the computed pass |
| Format.ComputedVerbFormatted | format.go:6-11 | when the renderer copies `%` and a computed verb literally, formatting that verb yields its computed text |
| Format.EscapedPercentRescanned | format.go:6-11 | when the renderer copies `%j` literally, `%%j` comes out as the computed day of the year, not as `%j` |

## Left out

- Go's `time.Time` accessors are not modelled. They are `Year`, `ISOWeek`, `YearDay`, `Hour`, `Unix`, `Weekday`, and the weekday of 1 January in the value's `Location`. Their results are fields of `DateTime`, because calendar and ISO 8601 week arithmetic belong to Go's library.
- Go's layout rendering (`time.Format`) is a function parameter of `Format.Format`. Nothing is stated about what it renders.
- `Parse` (parse.go) and `Convert` (convert.go) are not modelled. Each only passes the first pass's layout to Go's `time.Parse`, which is not part of this model.
- The `float64` round trip in `yearWeek` is not modelled. It is exact for day numbers 1 to 366, so the model uses plain integer division.
- Strings are modelled as sequences of characters, and the scanner compares one character at a time. Go compares bytes. Every table key is ASCII, so both decide the same matches. UTF-8 decoding is not modelled.
- The capacity hint of the output `bytes.Buffer` is not modelled. The buffer is a local sequence that the loop appends to.
- Locales and the `E`/`O` modifiers are not modelled. The source comments them out.
- The `%g` slice panics when the ISO year's decimal has fewer than four characters. The model makes this a precondition (`IsoYearSliceable`) and does not model the panic.
- `DateTime.unix` is an unbounded integer. The source renders `int(t.Unix())`, which narrows an `int64` to the platform's `int`; on a 32-bit platform that would wrap, and the model does not capture this.
- The `render` parameter of `Format.Format` receives only the `DateTime` record of derived numbers, while Go's `t.Format` also reads the month, the minutes, the seconds and the zone. Nothing is stated about `render`, so no contract depends on what it reads.
