# mini-risk core in Dafny

This project models the core of the mini-risk engine. The engine values a portfolio of trades against
market data and computes a parallel PV01 by bumping and repricing. The model covers:

- **Calendar and `Date`** (`calendar.dfy`, `date.dfy`).
  - Serial day numbers from 1-Jan-1900 for the years [1900, 2200).
  - The `days_epoch` table, built by a loop.
  - Validation with its error cases.
  - `serial`/`day_of_year`, and `get_dmy` with its two binary searches.
  - The `YYYYMMDD` and `d-m-y` formats.
  - The class `Date`, whose init methods store a serial only after validation.
  - The table-driven code is proved against reference definitions that walk the calendar year by year and
    month by month. The key results are the round trip `get_dmy(serial(y,m,d)) == (d,m,y)` and that
    consecutive days have consecutive serials.
- **`Market`** (`market.dfy`).
  - A class holding the risk-factor cache (`m_risk_factors`) and the curve cache (`m_curves`).
  - `from_mds` fills the risk-factor cache lazily from a market data server, which is a parameter.
  - `to_days` parses tenor codes.
  - `get_yield` builds the tenor→cumulative-rate knot map, where the first key for a tenor wins.
  - `set_risk_factors` and `get_risk_factors`.
  - `get_curve` for discount curves.
- **`CurveDiscount`** (`curve_discount.dfy`).
  - The currency taken from the curve name.
  - `df`: its past-date and beyond-curve errors, the `lower_bound` bracket, and the linear interpolation of
    the exponent.
- **Portfolio utilities** (`portfolio_utils.dfy`).
  - `compute_prices` and `portfolio_total`.
  - The parallel PV01 protocol: currencies by 3-letter suffix in ascending order; a down, an up and a
    restore `set_risk_factors` on a working copy of the market; one central difference per trade.
  - `load_trade`'s dispatch on the trade id.
- **Record streamer** (`streamer.dfy`).
  - `my_ofstream` and `my_ifstream` as classes over character sequences, with `;`-separated tokens.
  - Doubles as 16 zero-padded hex digits of their 64-bit pattern.
  - Length-prefixed vectors, and dates as `YYYYMMDD`.
  - The round trips of all of these, and the sticky `std::hex` flag.

The supporting files are:

- `wrappers.dfy`: Option, Result and Outcome.
- `doubles.dfy`: a `double` is NaN or a real number.
- `text.dfy`: decimal and hexadecimal digits, `atoi`, whitespace, lexicographic order, and the ascending
  enumeration of a `std::set`.

The prefixes `ir_rate_prefix` and `ir_curve_discount_prefix` are defined in a header that is not part of
this model, so they are parameters.

A note on `Date.cpp:64`: it reads `dmy[0] serial - days_ytd[m] + 2;`, which lacks its `=`. It is modelled
as `dmy[0] = serial - days_ytd[m] + 2`, the assignment the `else` branch makes with `+ 1`, and
`Calendar.GetDmy` is proved correct with it.

Two points of the code's order are worth stating, and the model follows them:

- `set_risk_factors` clears the curve cache before it assigns (`Market.cpp:86`).
- A failing batch is not atomic: the pairs before the first unknown name stay assigned
  (`Markets.AssignFailureKeepsPrefix`).

Also, a failed `from_mds` leaves a NaN placeholder cached. A later `from_mds` of the same name therefore
returns NaN instead of failing (`Markets.FetchTwice`).

## Model

| member | source | states |
|---|---|---|
| Calendar.GregorianRule | DemoRisk/Date.cpp:27-30 | a year is leap iff divisible by 4 and not by 100 unless by 400; 1900 is not leap, 2000 is |
| Calendar.DaysEpochClosedForm | DemoRisk/Date.cpp:9-18 | entry i of days_epoch is 365·i plus the number of leap years in [1900, 1900 + i) |
| Calendar.EpochEnds | DemoRisk/Date.cpp:9-18 | the last entry (1-Jan-2199) is 109208 and the running sum after the last year is 109573, one past the largest valid serial |
| Calendar.DaysEpochMonotone | DemoRisk/Date.cpp:13-16 | the table grows by at least 365 per year, so it is strictly increasing |
| Calendar.DaysEpochTableSorted | DemoRisk/Date.cpp:22 | the static table is sorted, as std::upper_bound in get_dmy requires |
| Calendar.BuildDaysEpoch | DemoRisk/Date.cpp:11-17 | the initialiser loop with its running sum fills n_years entries, entry i being the days from 1-Jan-1900 to 1-Jan of 1900 + i |
| Calendar.MonthStartStep | DemoRisk/Date.cpp:20-21 | days_ytd of month m + 1 is days_ytd of m plus the days of m (with the leap day after February), so the two tables agree |
| Calendar.CheckValidSerial | DemoRisk/Date.cpp:74-77 | check_valid(serial) passes iff the serial is below the days of the 300 years, i.e. at most 109572; the error carries the serial |
| Calendar.CheckValidYmd | DemoRisk/Date.cpp:79-86 | passes iff the date is valid; fails with the year error iff the year is outside [1900, 2200), with the month error iff the year is fine and the month is outside [1, 12], with the day error iff only the day is outside [1, dmax] |
| Calendar.OutOfRangeMonthOrDayFails | DemoRisk/TestDate.cpp:9-51 | any month from 13 or day from 32 is rejected, whatever the year |
| Calendar.ThirtyFirstOfAprilFails | DemoRisk/Date.cpp:84-85 | 31-Apr fails with the day error and dmax 30 |
| Calendar.TwentyNinthOfFebruary | DemoRisk/Date.cpp:84-85 | 29-Feb is valid iff the year is leap |
| Calendar.DayOfYear | DemoRisk/Date.cpp:88-91 | for a day within its month the result is below the year's length; January and February get no leap day |
| Calendar.Serial | DemoRisk/Date.h:77-80 | the serial of a valid date lies within its year's span of days_epoch and is at most 109572 |
| Calendar.SerialOrder | DemoRisk/Date.h:61-74 | the serial order of two valid dates is exactly their calendar (year, month, day) order |
| Calendar.SerialInjective | DemoRisk/Date.h:77-80 | two valid dates with the same serial are the same date |
| Calendar.LastSerialIs31Dec2199 | DemoRisk/Date.cpp:76 | 109572, the bound check_valid uses, is the serial of 31-Dec-2199 |
| Calendar.NextDaySerial | DemoRisk/TestDate.cpp:98-151 | the day after any valid date except 31-Dec-2199 is valid and has the next serial, across month and year ends too |
| Calendar.CivilOf | DemoRisk/Date.cpp:41-72 | the reference conversion of a serial in range: a valid date whose serial is that serial |
| Calendar.CivilOfSerial | DemoRisk/TestDate.cpp:55-93 | converting a valid (y, m, d) to its serial and back gives (y, m, d) |
| Calendar.ValidSerialsAreDates | DemoRisk/Date.cpp:74-77 | check_valid(serial) passes iff the serial is the serial of some valid date |
| Calendar.UpperBound | DemoRisk/Date.cpp:46 | std::upper_bound on a sorted table: every element before the index is at most x, every element from it is above x |
| Calendar.GetDmy | DemoRisk/Date.cpp:41-72 | the two binary searches and the leap-day adjustment give exactly the reference date of the serial |
| Calendar.MonthSearch | DemoRisk/Date.cpp:50-69 | the month the second search finds, with the day computed (with + 2 after a removed leap day), is a valid date whose day of year is the one searched |
| Calendar.Pad2 | DemoRisk/Date.cpp:33-38 | padding_dates of a value below 100 is two digits denoting it |
| Calendar.CompactLayout | DemoRisk/Date.h:90 | to_string(false) of a valid date is eight digits: the year, then the zero-padded month, then the zero-padded day |
| Dates.Date.constructor | DemoRisk/Date.h:34 | the default Date has serial 0, which is 1-Jan-1900 |
| Dates.Date.FromSerial | DemoRisk/Date.h:36-39 | Date(serial) fails iff check_valid(serial) fails, else holds that serial |
| Dates.Date.InitSerial | DemoRisk/Date.h:41-45 | init(serial) stores the serial only after check_valid passes; on failure the object is unchanged |
| Dates.Date.FromYmd | DemoRisk/Date.h:47-50 | Date(y, m, d) fails iff the date is invalid, with check_valid's error, else holds a serial that converts back to (y, m, d) |
| Dates.Date.InitYmd | DemoRisk/Date.h:52-56 | init(y, m, d) stores serial(y, m, d) only after check_valid passes; on failure the object is unchanged |
| Dates.Date.Less | DemoRisk/Date.h:61-64 | < holds iff the first date comes earlier in the calendar |
| Dates.Date.Equal | DemoRisk/Date.h:66-69 | == holds iff both hold the same calendar date |
| Dates.Date.Greater | DemoRisk/Date.h:71-74 | > holds iff the first date comes later in the calendar |
| Dates.Date.Minus | DemoRisk/Date.cpp:97-102 | d1 - d2 is negative iff d1 < d2, zero iff d1 == d2, and 1 when d1 is the day after d2 |
| Dates.Date.ToString | DemoRisk/Date.h:85-91 | to_string formats the calendar date of the serial as d-m-y or as YYYYMMDD; the latter is eight digits |
| Dates.NextDayGap | DemoRisk/TestDate.cpp:133 | a valid date and the day before it have serials one apart |
| Dates.PrettyRoundTrip | DemoRisk/TestDate.cpp:70-76 | to_string(true) of Date(y, m, d) is "d-m-y" for every valid date |
| CurveDiscounts.CurveCurrency | DemoRisk/CurveDiscount.cpp:13 | substr(prefix length, 3) fails iff the name is shorter than the prefix; otherwise the up to three characters right after the prefix |
| CurveDiscounts.CurveCurrencyOfName | DemoRisk/CurveDiscount.cpp:13 | the name prefix + ccy + anything gives back ccy |
| CurveDiscounts.LowerBound | DemoRisk/CurveDiscount.cpp:24 | std::map::lower_bound: every knot before the index has a smaller tenor, every knot from it a tenor at least the offset |
| CurveDiscounts.Df | DemoRisk/CurveDiscount.cpp:17-33 | fails iff the date is before today (past-date error) or its offset is beyond the last knot (beyond-curve error); otherwise the exponent is interpolated between the knots that bracket the offset, t1 < offset <= t2 |
| CurveDiscounts.DfAtKnot | DemoRisk/CurveDiscount.cpp:30-31 | at every knot after the first the discount factor is exp(-rate of that knot) |
| CurveDiscounts.InterpolateAtUpperKnot | DemoRisk/CurveDiscount.cpp:30-31 | the interpolated exponent at t2 is -rt2 |
| CurveDiscounts.InterpolateIsWeightedAverage | DemoRisk/CurveDiscount.cpp:30-31 | inside a bracket the exponent is minus the distance-weighted average of rt1 and rt2, hence linear in the offset |
| CurveDiscounts.NaNKnotPropagates | DemoRisk/CurveDiscount.cpp:30-31 | a NaN rate at either bracketing knot makes the discount factor exp(NaN) |
| Markets.Filter | DemoRisk/Market.cpp:67-68 | the server's match returns exactly those of its names that match the rate pattern, and no more names than it has |
| Markets.RateNameMatches | DemoRisk/Market.cpp:67 | every name prefix + digits + unit + one character + ccy matches the pattern get_yield builds for ccy |
| Markets.BucketIsSuffix | DemoRisk/PortfolioUtils.cpp:104-111 | a rate name matches the pattern of a currency code iff it matches the any-currency pattern and ends with that code |
| Markets.Fetch | DemoRisk/Market.cpp:25-33 | from_mds: a cached name returns its cached value and changes nothing; a new name is inserted, and succeeds iff a server holds it, storing the server's value; with no server it fails and leaves NaN cached; other names are untouched |
| Markets.FetchTwice | DemoRisk/Market.cpp:27-32 | a second from_mds of a name changes nothing and never fails, returning NaN when the first one failed |
| Markets.Market.FromMds | DemoRisk/Market.cpp:25-33 | the method updates the cache and returns exactly as Fetch states |
| Markets.ToDays | DemoRisk/Market.cpp:35-63 | the result is below 2^32 (unsigned arithmetic) and needs a digit and a D/W/M/Y unit; any other unit fails |
| Markets.ToDaysOfTenorCode | DemoRisk/Market.cpp:39-62 | a key prefix + digits + unit + separator + ccy, with any digit string (leading zeros included) of value n at most INT_MAX and unit D/W/M/Y, gives n·1, n·7, n·30 or n·365, modulo 2^32 |
| Markets.ToDaysRejectsHugeDigits | DemoRisk/Market.cpp:42 | a digit string of value above INT_MAX fails as std::stoi's out_of_range, whatever the unit |
| Markets.ToDaysOfRateName | DemoRisk/Market.cpp:39-62 | a rate name with tenor n (at most INT_MAX) and unit D/W/M/Y gives n·1, n·7, n·30 or n·365, modulo 2^32 |
| Markets.ToDaysRejectsHugeTenor | DemoRisk/Market.cpp:42 | a tenor above INT_MAX fails as std::stoi's out_of_range |
| Markets.EmplaceKeepsOrder | DemoRisk/Market.cpp:74 | emplace keeps the knot keys strictly increasing |
| Markets.EmplaceContents | DemoRisk/Market.cpp:74 | emplace adds the tenor to the keys; an existing tenor leaves the map unchanged, a new one adds exactly its knot and keeps all others |
| Markets.EmplaceFirstWins | DemoRisk/Market.cpp:74 | a second emplace of the same tenor does not overwrite the first value |
| Markets.YieldStep | DemoRisk/Market.cpp:71-75 | one loop step succeeds iff to_days parses the key and from_mds finds it, and fails with the error of whichever fails; on success it caches exactly the key with the rate from_mds returned, keeps the knots increasing, adds the tenor t, adds the knot (t, t * rate / 365) when t is new and changes nothing when t is already a knot, and adds no other knot |
| Markets.BuildYield | DemoRisk/Market.cpp:71-75 | the whole loop keeps every earlier knot and cached factor and, on success, has cached every matched key |
| Markets.YieldSucceeds | DemoRisk/Market.cpp:71-75 | the loop succeeds iff to_days parses every matched key and from_mds finds every one, in the cache or on the server |
| Markets.YieldFailsAt | DemoRisk/Market.cpp:71-75 | a failing loop stops with the to_days or from_mds error of the first matched key that cannot be taken |
| Markets.YieldKnotOfKey | DemoRisk/Market.cpp:71-75 | the first matched key to give a new tenor t leaves the knot (t, t * rate / 365) in the curve, rate being the value from_mds cached for that key |
| Markets.YieldKnotsFromKeys | DemoRisk/Market.cpp:71-75 | every knot the loop adds has a new tenor, comes from the first matched key giving that tenor, and holds t * rate / 365 for that key's cached rate (emplace keeps the first) |
| Markets.YieldTenors | DemoRisk/Market.cpp:65-77 | the tenors of a built yield curve are exactly to_days of the matched keys |
| Markets.Market.GetYield | DemoRisk/Market.cpp:65-77 | the loop over the matched keys (the server's names matching prefix + `\d+[DWMY].` + ccy) returns and caches exactly what BuildYield gives from no knots and the current cache, so the lemmas about BuildYield fix when it fails and every knot's tenor and value |
| Markets.Market.AddKnot | DemoRisk/Market.cpp:73-74 | one iteration of the loop: to_days, from_mds, then emplace, as YieldStep states |
| Markets.AssignAll | DemoRisk/Market.cpp:87-91 | the loop keeps the cache's names; it succeeds iff every listed name is cached; unlisted names keep their values; on success each listed name holds the last value listed for it |
| Markets.AssignFailureKeepsPrefix | DemoRisk/Market.cpp:87-91 | at the first unknown name the call fails with that name, and the pairs before it stay assigned |
| Markets.Market.SetRiskFactors | DemoRisk/Market.cpp:84-92 | clears the curve cache, then assigns as AssignAll states |
| Markets.Market.GetRiskFactors | DemoRisk/Market.cpp:94-102 | returns exactly the cached factors whose names match, in strictly ascending name order, each with its cached value, and changes nothing |
| Markets.BuildCurve | DemoRisk/CurveDiscount.cpp:10-15 | constructing a discount curve keeps today and the name, takes the knots of its currency's yield (increasing), and keeps every cached factor |
| Markets.Market.BuildDiscountCurve | DemoRisk/Market.cpp:12-14 | a null entry is inserted, then replaced by the curve BuildCurve gives; the factor cache becomes BuildCurve's |
| Markets.Market.GetDiscountCurve | DemoRisk/Market.cpp:10-23 | an absent or null entry is built and cached; a cached discount curve is returned with nothing changed; a cached curve of another kind fails the cast |
| Markets.Market.Copy | DemoRisk/PortfolioUtils.cpp:97 | the copy has the same date, server, factors and curves |
| PortfolioUtils.ComputePrices | DemoRisk/PortfolioUtils.cpp:23-30 | one price per pricer, in order, each the pricer applied to the market |
| PortfolioUtils.PortfolioTotalIsSum | DemoRisk/PortfolioUtils.cpp:34-37 | the left fold from 0.0 is the sum of the values; it is NaN iff some value is NaN; the empty total is 0 |
| PortfolioUtils.AccumulateIsSum | DemoRisk/PortfolioUtils.cpp:36 | std::accumulate from any start is the start plus the sum |
| PortfolioUtils.PortfolioTotalAdditive | DemoRisk/PortfolioUtils.cpp:34-37 | the total of two concatenated portfolios is the sum of their totals |
| PortfolioUtils.Bumped | DemoRisk/PortfolioUtils.cpp:117-139 | a bump keeps the set of names and changes no name outside the currency's bucket |
| PortfolioUtils.RestoreIsOriginal | DemoRisk/PortfolioUtils.cpp:136-139 | the restore bump gives back the original risk factors |
| PortfolioUtils.SortedNamesAreDistinct | DemoRisk/PortfolioUtils.cpp:111 | the pairs get_risk_factors returns never name a factor twice |
| PortfolioUtils.AssignBucket | DemoRisk/PortfolioUtils.cpp:122 | set_risk_factors with a currency's factors each shifted succeeds and yields exactly the bumped original factors, whatever bump the copy held before |
| PortfolioUtils.BumpsKeepNames | DemoRisk/PortfolioUtils.cpp:117-131 | the bumped list names the same factors in the same order as ccy_base |
| PortfolioUtils.CollectCurrencies | DemoRisk/PortfolioUtils.cpp:99-106 | ccy_set holds exactly the last three characters of the names of length at least 3 |
| PortfolioUtils.BumpDown | DemoRisk/PortfolioUtils.cpp:117-121 | bumped lists ccy_base's names in order, each with its value minus one bump |
| PortfolioUtils.Rebump | DemoRisk/PortfolioUtils.cpp:128-138 | overwriting in place gives ccy_base's names in order, each with its value plus one bump or restored |
| PortfolioUtils.ApplyBump | DemoRisk/PortfolioUtils.cpp:122 | set_risk_factors on the working copy leaves exactly the bumped original factors and no curves |
| PortfolioUtils.CentralDifferences | DemoRisk/PortfolioUtils.cpp:141-143 | entry m is (up_m - down_m) / (2 · bump), one per trade |
| PortfolioUtils.BumpAndReprice | DemoRisk/PortfolioUtils.cpp:111-143 | one currency: prices under the down and up bumps give the PV01 vector, and the working copy ends with the original factors |
| PortfolioUtils.ComputePv01Parallel | DemoRisk/PortfolioUtils.cpp:84-149 | one entry per currency of the matched rate factors, in strictly ascending order, named "parallel " + prefix + ccy, holding that currency's PV01 per trade from the original factors; the input market is only read |
| PortfolioUtils.LoadTrade | DemoRisk/PortfolioUtils.cpp:152-169 | reads one token as the trade id; it succeeds iff the id is the payment trade's, and otherwise fails with that id |
| PortfolioUtils.SavedIdDispatches | DemoRisk/PortfolioUtils.cpp:159-162 | an id written in decimal and followed by the separator is read back as the same id, leaving the rest of the line unread |
| Text.SortedElements | DemoRisk/PortfolioUtils.cpp:108 | iterating a std::set visits each element once, in strictly ascending order |
| Streamer.DoubleToken | DemoRisk/Streamer.h:98 | a double is written as 16 characters then the separator |
| Streamer.OutStream.constructor | DemoRisk/Streamer.h:25-28 | a new output stream has written nothing and is in decimal mode |
| Streamer.OutStream.EndLine | DemoRisk/Streamer.h:29 | endl appends a newline and keeps the basefield |
| Streamer.OutStream.WriteString | DemoRisk/Streamer.h:74-79 | the generic << appends the value, then the separator |
| Streamer.OutStream.WriteUnsigned | DemoRisk/Streamer.h:74-79 | an unsigned value is written under the current basefield, then the separator |
| Streamer.OutStream.WriteDoubleAsWritten | DemoRisk/Streamer.h:88-101 | a double appends its 16 hex digits and the separator, and leaves the stream in hex mode |
| Streamer.OutStream.WriteDouble | DemoRisk/Streamer.h:88-101 | the same token, with the basefield left as it was |
| Streamer.OutStream.WriteDate | DemoRisk/Streamer.h:176-180 | a date is written as to_string(false), then the separator |
| Streamer.OutStream.WriteDoublesAsWritten | DemoRisk/Streamer.h:144-151 | the size under the current basefield, then each element; hex mode is on afterwards iff it was before or the vector was not empty |
| Streamer.OutStream.WriteDoubles | DemoRisk/Streamer.h:144-151 | the size, then each element, with the basefield kept |
| Streamer.GetLineSplits | DemoRisk/Streamer.h:44 | getline on a failed stream changes nothing but good(); otherwise the line has no newline and the file was the line, a newline and the rest, or just the line at the end of the file |
| Streamer.GetTokenSplits | DemoRisk/Streamer.h:49-54 | read_token never contains the separator; a stream that stays good had the token, the separator and the rest; a failed stream gives the empty token |
| Streamer.TokenRoundTrip | DemoRisk/Streamer.h:49-54 | a token without the separator, written with its separator, is read back whole and the stream stays good |
| Streamer.ParseUnsigned | DemoRisk/Streamer.h:66-72 | >> on an unsigned integer fits in 64 bits and gives 0 when the token has no leading digit |
| Streamer.ParseDoubleBits | DemoRisk/Streamer.h:105-129 | >> on a double gives the 64-bit pattern of the word's leading hex digits, 0 when there is none |
| Streamer.ParseDate | DemoRisk/Streamer.h:182-191 | >> on a date fails with the substr error iff the word is shorter than 6 characters; a date read is valid |
| Streamer.ReadTokens | DemoRisk/Streamer.h:160-161 | reading n elements consumes exactly n tokens |
| Streamer.DecodeDoubles | DemoRisk/Streamer.h:154-163 | >> on a vector reads as many elements as the size token says |
| Streamer.UnsignedRoundTrip | DemoRisk/Streamer.h:66-79 | a 64-bit unsigned written in decimal reads back equal |
| Streamer.DoubleRoundTrip | DemoRisk/Streamer.h:88-129 | 16 hex digits of a pattern read back as the same pattern |
| Streamer.DateRoundTrip | DemoRisk/Streamer.h:176-191 | a valid date written as YYYYMMDD reads back as the same date |
| Streamer.ReadTokensRoundTrip | DemoRisk/Streamer.h:148-161 | the tokens of n written doubles are read back as their 16-digit words, leaving what follows unread |
| Streamer.ParseHexWords | DemoRisk/Streamer.h:105-129 | the 16-digit words of a vector of doubles parse back to the same vector |
| Streamer.DoublesRoundTrip | DemoRisk/Streamer.h:144-163 | a vector written on a decimal stream reads back equal, leaving what follows unread |
| Streamer.StickyHexChangesSmallValues | DemoRisk/Streamer.h:98 | after a double, an unsigned from 10 to 15 is written as one hex letter and read back as 0 |
| Streamer.SmallSizesSurviveHex | DemoRisk/Streamer.h:98 | values below 10 are written the same in hex and decimal |
| Streamer.StickyHexBreaksVectorSize | DemoRisk/Streamer.h:144-163 | after a double, a vector of ten doubles is written with size "a" and reads back empty |
| Streamer.InStream.constructor | DemoRisk/Streamer.h:36-40 | a new input stream has the whole file unread and an empty line |
| Streamer.InStream.ReadLine | DemoRisk/Streamer.h:42-47 | getline into m_line, the line stream reset to m_line with its state flags kept, and true iff m_line is not empty |
| Streamer.InStream.ReadLineChecked | DemoRisk/Streamer.h:42-47 | the same read, returning true only when getline extracted a non-empty line |
| Streamer.InStream.ReadToken | DemoRisk/Streamer.h:49-54 | consumes and returns the next token of the line |
| Streamer.InStream.ReadUnsigned | DemoRisk/Streamer.h:66-72 | consumes one token and returns its unsigned value |
| Streamer.InStream.ReadWord | DemoRisk/Streamer.h:66-72 | consumes one token and returns its first whitespace-delimited word |
| Streamer.InStream.ReadDoubleBits | DemoRisk/Streamer.h:105-129 | consumes one token and returns the pattern of its hex digits |
| Streamer.InStream.ReadDoubles | DemoRisk/Streamer.h:154-163 | reads the size, resizes, and reads that many doubles, as DecodeDoubles states |
| Streamer.InStream.ReadElements | DemoRisk/Streamer.h:160-161 | the loop fills each element of the resized vector from the next token, in order |
| Streamer.InStream.ReadDate | DemoRisk/Streamer.h:182-191 | consumes one token; fails iff ParseDate fails, leaving the date unchanged; otherwise the date holds the parsed date |
| Streamer.ReadLineRepeatsLastLine | DemoRisk/Streamer.h:42-47 | after a last line without a newline, read_line leaves the state as it is and reports true again |
| Streamer.ReadLineCheckedConsumes | DemoRisk/Streamer.h:42-47 | the checked read_line reports true only when it consumes input, and never on a failed stream |

## Left out

- File opening and closing, console printing (`print_portfolio`, `print_price_vector`, the `std::cout` traces), and `save_portfolio`/`load_portfolio`'s file handling. The streams are character sequences, and a file that cannot be opened is not modelled.
- The regex engine (`std::regex_match`, `m_mds->match`). The core's two patterns, prefix + `\d+[DWMY].` + currency and the same with `[A-Z]{3}`, are matched by a predicate written out for them.
- The market data server is a parameter: a map of quotes, whose `get` fails for a missing name.
- `get_fx_spot` and `mds_spot_name`: they are not part of the core's bump protocol and need `Market.h`.
- Floating-point arithmetic. A `double` is NaN or an exact real, so rounding, infinities and signed zero are not modelled. `std::exp` is kept symbolic (`ExpOf`).
- The union that reinterprets a double as its 64-bit pattern: a double is written and read as its pattern, a natural below 2^64.
- `std::stoi` and `std::atoi` on signs, leading whitespace and `0x` prefixes. Tenors and date fields are parsed as leading decimal digits.
- Markets.ToDays: requires a key of at least |prefix| + |ccy| + 2 characters (the prefix, a tenor code, the separator, the currency). Every key the server matches is that long (`Markets.MatchedKeysLongEnough`). Shorter keys are not modelled. In the source the substr length `key.length() - extra_length` (`Market.cpp:38-39`) wraps in `size_t` for them, with these results:
  - a key shorter than the prefix makes `substr` throw `out_of_range`;
  - a key exactly as long as the prefix, or of length |prefix| + |ccy| + 1, makes `back()` read an empty string (undefined behaviour);
  - any length in between parses the whole rest of the key, so with prefix `IR.` and currency `USD` the key `IR.5D` gives 5.
- CurveDiscounts.Df: for a date from today on, requires at least one knot and an offset after the first knot. There the source dereferences `end()` of an empty map, and steps before `begin()` at or before the first knot; both are undefined behaviour. A date before today needs neither: it fails with the past-date error first.
- Streamer.ParseUnsigned: a blank token gives 0. In the source the extraction then fails at the end of the input and leaves the variable (`sz`, the trade id) unwritten, so its value is indeterminate. A leading `+` or `-`, which the unsigned extraction accepts (`-` wraps modulo 2^64), is not modelled: such a token gives 0.
- Streamer.ParseDoubleBits: an empty word gives 0. In the source the hex extraction then fails at the end of the input and leaves `tmp.u` unwritten, so the double is indeterminate. A `0x` or `0X` prefix and a leading `+` or `-`, which hex extraction accepts (`Streamer.h:124`), are not modelled: the model gives 0 for `0x1f`, `+1f` and `-1`, where the source reads 31, 31 and 2^64 - 1 (a NaN pattern).
- Markets.Matches: the rate prefix is taken to hold no regular-expression metacharacter and is compared literally. The source concatenates it into the pattern (`Market.cpp:67`, `PortfolioUtils.cpp:93`, `PortfolioUtils.cpp:111`), so a `.` or `+` in a prefix would match more names there.
- Markets.Market.GetYield: requires a server. The source dereferences a null `m_mds`.
- Trade pricing and `TradePayment` (`load`, `save`, `m_id`). Pricers are functions of the risk-factor map, so their lazy `from_mds` calls on the working copy are not modelled. `TradePayment::m_id` is a parameter of `LoadTrade`.
- The `shared_ptr`/`dynamic_pointer_cast` mechanics. A cached curve is a value, and a curve of another kind is a separate constructor.
- The commented-out `compute_pv01` and `time_frac`, which only divides a difference by 365.0 in floating point.
- The vector `>>` is modelled for doubles, the only element type the core streams. A `resize` that runs out of memory is not modelled.
- `Market.h`, `TradePayment.h`, `Global.h`, `Macros.h` and `PortfolioUtils.h` are not part of this model. `guid_t`, declared in `Global.h`, is taken to be a 64-bit unsigned integer. `PortfolioUtils.LoadTrade` reads it through `Streamer.ParseUnsigned`, which saturates at 2^64 - 1.
- PortfolioUtils.Pv01Vector: the function only fixes the length of the vector. Its entries are defined directly as central differences of the pricers under the up and down bumps.

## Findings

| source | as written | input that shows it | evidently intended | confidence | as-written member | corrected member |
|---|---|---|---|---|---|---|
| DemoRisk/Streamer.h:98 | `std::hex` is set on the output stream for a double and never reset, so every later unsigned (a vector's size, a trade id) is written in hex but read back in decimal | a double, then a vector of ten doubles: the size is written as `a`, and reading it gives 0, so the vector reads back empty | the basefield is restored after the double, so sizes and ids are written in decimal | not executed | Streamer.StickyHexBreaksVectorSize | Streamer.DoublesRoundTrip |
| DemoRisk/Streamer.h:42-47 | `read_line` returns `m_line.length() > 0` without checking getline. After a last line with no trailing newline the file stream is at end of file, the next getline fails and keeps `m_line`, and `read_line` reports true again | a file whose last line is `abc` with no newline: the second `read_line` after it returns true with the state unchanged, so `while (is.read_line())` at PortfolioUtils.cpp:188 hands the same line to `load_trade` again | `read_line` returns false once getline fails | not executed | Streamer.ReadLineRepeatsLastLine | Streamer.ReadLineCheckedConsumes |
