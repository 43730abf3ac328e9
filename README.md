# Receipt processor: the scorer and the score store

The service takes a purchase receipt, scores it with seven fixed rules, stores the
score under a freshly generated id, and later returns the score for that id. This project
models the two parts of `main.go` that do the work:

- `calculatePoints`, the scorer. Each rule is a Dafny function (module `Scoring`), and the
  method `Scoring.CalculatePoints` keeps the Go code's running total and loop. It is proved
  equal to `Score`, the sum of the rules. The rules need three things:
  - Go's reading of amounts with `strconv.ParseFloat`, read into an exact decimal instead of
    the nearest float64 (module `Amount`);
  - the two `time.Parse` layouts "2006-01-02" and "15:04" (module `Calendar`);
  - `strings.TrimSpace`, UTF-8 `len` and the `[a-zA-Z0-9]` character class (module `Text`).

  Digit strings have their own module, `Digits`.
- the `Storage` struct and its use by the two handlers: recording a score (`Store.Storage.Put`,
  `Store.ProcessReceipt`) and looking one up (`Store.Storage.Get`). This is a class whose
  `receipts` field is a `map<string, int>`.

Every place where the Go code discards a syntax error is modelled as the value Go then
produces (range errors and ParseFloat's special spellings are listed under "## Left out"):
- a total or price that ParseFloat rejects reads as `0`;
- a date or time that `time.Parse` rejects is the zero `time.Time`, 0001-01-01 00:00;
- its `Day()` is 1, so a bad date earns the odd-day bonus;
- it lies 366 days after the day a parsed clock time falls on (0000-01-01), so a bad time
  never earns the afternoon bonus.

Three behaviours of the code are easy to misread:
- A description that trims to nothing has length 0. `0 % 3 == 0`, so the item earns its
  price bonus (`Scoring.EmptyDescriptionQualifies`).
- A total of "100.50" is not a round dollar amount, so it earns the quarter bonus alone, 25
  points (`Scoring.TotalAt` with `w = "100"`, `f = "50"`).
- A qualifying item with a negative price earns negative points, so a receipt can score
  below 0. `Score` promises a nonnegative score only when no price is negative, and
  `Scoring.NegativePricePoints` shows the drop: a price of -5 or less costs at least a point.

## Model

| member | source | states |
|---|---|---|
| Scoring.CalculatePoints | main.go:99-146 | the accumulated points equal the sum `Score` of the seven rules |
| Scoring.Score | main.go:99-146 | a receipt without negative prices never scores below 0 |
| Scoring.RetailerPoints | main.go:103-104 | rule 1 gives at most one point per character: the full length exactly when every character is in [a-zA-Z0-9], and 0 exactly when none is |
| Scoring.RoundDollarPoints | main.go:106-110 | rule 2 gives 0 or 50, and 50 exactly when the total read as a real number equals its floor |
| Scoring.QuarterPoints | main.go:112-115 | rule 3 gives 0 or 25, and 25 exactly when four times the total is an integer |
| Scoring.ItemPairPoints | main.go:118 | rule 4 is a multiple of 5, five points for each complete pair of items, an unpaired item adding nothing |
| Scoring.HasScoringDescription | main.go:123-124 | a description that trims to nothing qualifies, and a description whose trimmed text is ASCII qualifies exactly when its trimmed length is a multiple of 3 |
| Scoring.ItemPoints | main.go:123-127 | a qualifying item earns the least `r` with `5 * r` not below its price; any other item earns nothing |
| Scoring.DescriptionPoints | main.go:120-128 | a list of items none of which qualifies earns nothing |
| Scoring.OddDayPoints | main.go:130-134 | rule 6 gives 0 or 6, and 6 exactly when the date is rejected or its day is odd |
| Scoring.AfternoonPoints | main.go:136-143 | rule 7 gives 0 or 10, and 10 exactly when the time parses and lies strictly between 14:00 and 16:00 |
| Text.CountAlnum | main.go:103-104 | the regular expression matches at most as many characters as the text has |
| Text.TrimSpace | main.go:123 | trimming never makes the text longer |
| Amount.AmountOf | main.go:107 | an amount ParseFloat rejects reads as 0, and an amount is negative only when its text starts with '-' |
| Amount.IsRoundDollar | main.go:108 | a round dollar amount is also a multiple of 0.25 |
| Amount.IsQuarterMultiple | main.go:113 | the test `math.Mod(total*100, 25) == 0` holds exactly when four times the mantissa is a multiple of `10^scale` |
| Amount.ShiftValue | main.go:107 | an exponent `e` multiplies the number by `10^e`, stated by cross-multiplying the mantissas by the powers of ten of both scales |
| Amount.ExponentExample | main.go:107 | "1.5e2" reads as 150 |
| Amount.NegativeExponentExample | main.go:107 | "15e-1" reads as 1.5, with one fraction digit |
| Amount.MissingExponentExample | main.go:107 | "1e", an exponent marker without digits, is a syntax error |
| Calendar.PurchaseDay | main.go:131-132 | the day of the parsed date, or of the zero Time, is between 1 and 31 |
| Calendar.PurchaseInstant | main.go:137 | the instant is never negative, and falls within the first day exactly when the time parses |
| Calendar.InAfternoonWindow | main.go:141 | an instant inside the window is a minute of the first day, the day parsed times fall on |
| Text.CountAlnumExtremes | main.go:103-104 | the retailer count is the full length exactly when every character is in [a-zA-Z0-9], and 0 exactly when none is |
| Text.CountAlnumAppend | main.go:103-104 | the count of matches over two pieces of text is the sum of their counts |
| Amount.ParseUnsignedAt | main.go:107 | an unsigned literal (digits, at most one '.', an optional exponent) never reads as a negative amount |
| Amount.ParseDecimal | main.go:107 | a parsed amount is negative only when the text starts with '-' |
| Amount.NoDigitsUnparseable | main.go:107 | text with no digit, the empty text included, is a syntax error (apart from the special spellings under "## Left out"), so the scorer reads it as 0 |
| Amount.ParseDecimalPlain | main.go:107 | the literal "w.f" reads as the number `w * 10^|f| + f` with `|f|` fraction digits |
| Amount.ParseWholeAt | main.go:107 | a run of digits with nothing after it reads as the whole number it writes |
| Amount.ParseFormatDecimal | main.go:107 | every exact decimal, written out with sign, digits and point, reads back as itself |
| Amount.RoundDollarIsIntegral | main.go:108-110 | the round-dollar test on the exact amount holds exactly when the real number equals its floor |
| Amount.QuarterMultipleIsIntegral | main.go:113-115 | the quarter test holds exactly when four times the real number is an integer |
| Amount.CeilFifth | main.go:126 | the bonus `r` is the least integer with `5 * r` not below the amount, and is not negative for a nonnegative price |
| Amount.CeilFifthNegative | main.go:126 | a negative amount has a bonus of at most 0, and a negative bonus once it is -5 or less |
| Amount.CeilFifthIsCeiling | main.go:126 | the bonus is the ceiling of a fifth of the real amount |
| Amount.CentsValue | main.go:107 | for at most two fraction digits, the cents are the real amount times 100 |
| Amount.RoundDollarCents | main.go:108-110 | with amounts in cents, rule 2 holds exactly when the cents are a multiple of 100 |
| Amount.QuarterMultipleCents | main.go:113-115 | with amounts in cents, rule 3 holds exactly when the cents are a multiple of 25 |
| Amount.CeilFifthCents | main.go:126 | for a nonnegative price of `c` cents, the bonus is `(c + 499) / 500` |
| Amount.MoneyBonusCents | main.go:107-115 | rules 2 and 3 together give 75 for round dollars, 25 for other multiples of 0.25, and 0 otherwise |
| Text.TrimLeftSpec | main.go:123 | left trimming keeps a suffix that does not start with white space and drops only white space |
| Text.TrimRightSpec | main.go:123 | right trimming keeps a prefix that does not end with white space and drops only white space |
| Text.TrimSpaceSpec | main.go:123 | the trimmed text has no white end, is empty exactly when the text is all white space, and is unchanged when neither end is white |
| Text.TrimSpaceIdempotent | main.go:123 | trimming a trimmed description changes nothing |
| Text.Utf8Width | main.go:123 | a character takes 1 to 4 bytes, and exactly 1 when it is ASCII |
| Text.Utf8Len | main.go:123 | the byte length is between the character count and four times it |
| Text.Utf8LenAscii | main.go:123 | the byte length equals the character count exactly when every character is ASCII |
| Calendar.DaysIn | main.go:131 | a month has 28 to 31 days, and 29 exactly for February of a leap year |
| Calendar.ParseDate | main.go:131 | an accepted date is a real calendar date with a four-digit year |
| Calendar.ParseFormatDate | main.go:131 | every date of years 0 to 9999 survives formatting as "2006-01-02" and parsing |
| Calendar.FormatParseDate | main.go:131 | an accepted date text is the canonical spelling of the date it yields |
| Calendar.ParseClock | main.go:137 | an accepted time is a minute of the day |
| Calendar.ParseClockPlain | main.go:137 | a one- or two-digit hour below 24, ':', a two-digit minute below 60 reads as `hour * 60 + minute` |
| Calendar.ParseFormatClock | main.go:137 | every minute of the day, written as "15:04", parses back to itself |
| Calendar.ParseShortHourClock | main.go:137 | a time before 10:00 is also accepted with a one-digit hour |
| Calendar.ClockParts | main.go:137 | an accepted time splits into hour digits, ':', and two minute digits, both in range, giving its minute of the day |
| Calendar.ParseClockSpellings | main.go:137 | an accepted time is spelled either canonically or, before 10:00, with a one-digit hour; there is no other spelling |
| Calendar.WindowEnds | main.go:138-139 | the window ends parsed from "14:00" and "16:00" are 840 and 960 minutes |
| Scoring.TotalPointsCents | main.go:107-115 | for a total in cents `c`, the two money rules give 75, 25 or 0 as `c` is a multiple of 100, of 25, or neither |
| Scoring.TotalPointsHundredths | main.go:107-115 | the same, for a total read as `c` hundredths |
| Scoring.TotalAt | main.go:107-115 | the same, for the plain text "w.f" with two fraction digits |
| Scoring.AmountOfCents | main.go:107 | the text "w.f" with two fraction digits is read as `w * 100 + f` hundredths |
| Scoring.UnparseableTotalPoints | main.go:107-115 | a total ParseFloat rejects reads as 0, which earns both bonuses, 50 and 25 |
| Scoring.ItemPairMonotone | main.go:118 | more items never earn fewer pair points |
| Scoring.ItemPairUnpaired | main.go:118 | `2k` and `2k + 1` items both earn `5k` points |
| Scoring.EmptyDescriptionQualifies | main.go:123-127 | an item whose description trims to nothing earns its price bonus |
| Scoring.UnparseablePricePoints | main.go:125-126 | a price ParseFloat rejects earns nothing |
| Scoring.ItemPointsCents | main.go:123-127 | a qualifying item priced at `c` cents earns `(c + 499) / 500` |
| Scoring.NegativePricePoints | main.go:123-127 | a qualifying item with a negative price earns at most 0 points, and below 0 once the price is -5 or less |
| Scoring.ItemPointsNonNegative | main.go:125-126 | a nonnegative price never earns negative points |
| Scoring.DescriptionPointsAppend | main.go:121-128 | the description rule over two item lists is the sum of the rule over each |
| Scoring.DescriptionPointsCommute | main.go:121-128 | the order of two groups of items does not change the description points |
| Scoring.DescriptionPointsNonNegative | main.go:120-128 | when every price is nonnegative, the description rule adds a nonnegative amount |
| Scoring.OddDayPointsParsed | main.go:131-134 | a parsed date earns 6 exactly when its day is odd |
| Scoring.UnparseableDatePoints | main.go:131-134 | a date Parse rejects counts as day 1 and earns 6 |
| Scoring.AfternoonPointsParsed | main.go:137-143 | a parsed time earns 10 exactly when it is strictly between 14:00 and 16:00, and 0 exactly when it is not |
| Scoring.UnparseableTimePoints | main.go:137-143 | a time Parse rejects earns nothing |
| Scoring.OutsideWindowExamples | main.go:137-143 | "14:00", "16:00" and "13:01" earn no afternoon bonus |
| Scoring.InsideWindowExamples | main.go:137-143 | "14:01" and "15:59" earn the afternoon bonus |
| Store.Storage.constructor | main.go:45-47 | the store starts out empty |
| Store.Storage.Put | main.go:70-72 | the score is recorded under the id and every other id keeps its score |
| Store.Storage.Get | main.go:84-91 | a lookup finds a score exactly when the id is recorded, returns that id's score, and changes nothing |
| Store.ProcessReceipt | main.go:67-72 | processing returns the receipt's `Score` and records it under the given id, leaving every other id alone |
| Store.ProcessTwoAndLookUp | main.go:60-95 | two receipts processed under different ids each give back their own score, and an id never handed out is not found |

## Left out

- HTTP routing, JSON decoding and encoding, response codes and logging are not modelled. The
  handlers appear only as the store operations they perform.
- The `sync.RWMutex` around the map is not modelled: the model is sequential, so concurrent
  requests and lock ordering are not captured.
- `uuid.New()` is not modelled. The id is a parameter of `Store.ProcessReceipt`, and the model
  does not assume ids are unique: `Store.Storage.Put` overwrites, as the Go map assignment does.
- Amount.ParseDecimal, Amount.IsQuarterMultiple: amounts are read exactly rather than rounded to
  the nearest float64, and rule 3's product `total*100` is taken exactly. Where float64 rounding
  or overflow changes the value, Go scores differently from the model:
  - literals too long for float64 to hold exactly;
  - magnitudes that ParseFloat turns into ±Inf;
  - magnitudes too small for float64, which ParseFloat rounds to 0 without an error. For
    example, the total "1e-400" earns 75 in Go, but 0 in the model.
  - totals whose `total*100` overflows to +Inf, so that `math.Mod` yields NaN. For example,
    the total "1e307" earns 50 in Go, but 75 in the model.
- Amount.ParseDecimal: the literals "inf", "infinity" and "nan", hexadecimal floats, and underscores
  between digits (which ParseFloat accepts, as in "1_000.50") are treated as syntax errors.
- Amount.CeilFifth: the product `price * 0.2` is taken exactly rather than in float64, and the
  conversion `int(...)` is taken as exact. A value outside the int range is not modelled.
- Scoring.CalculatePoints: the Go `int` accumulator is modelled as an unbounded integer, so 64-bit
  wrap-around on an enormous score is not modelled.
- Calendar.ParseDate, Calendar.ParseClock: the model covers only the fixed layouts "2006-01-02"
  and "15:04", which are all the scorer uses. Time zones and other layout elements of
  `time.Parse` are not modelled.
