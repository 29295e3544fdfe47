# Mini IBEX implied-volatility pipeline: a Dafny model

The system scrapes the MEFF web page of the Mini IBEX 35 futures and options
contract. It stores the raw quotes in DynamoDB and computes the implied
volatility (IV) of every option against the nearest future. Streamlit
dashboards then draw the volatility smile.

This project models the deterministic logic around the Black-Scholes solver:
what reaches the solver and what comes back as a usable volatility.

- **Scrapers and raw-data Lambdas.** Read the expiry drop-down into a code-to-expiry dictionary (with its `OPE`/`OCE` retry or alias). Decide call or put from the `data-tipo` code and clean the cells (`&nbsp;`, non-breaking spaces). Convert Spanish-locale amounts (thousands dot, decimal comma). Drop the rows a copy rejects. Build the `#`-separated ids and the DynamoDB items, with their `None` fields removed.
- **Volatility step.** Pick the strike and price columns and floor the days to expiry at one. Ask the solver only where a copy asks it, and null a volatility at the copy's ceiling (5, or 500 percent). Keep one result per row, except that the mibian copy appends a second `None` to `IV_raw` when its solver returns `None`, and then the step raises `ValueError`. Skip an expiry that has no future.
- **IV Lambda.** Look fields up under several names (`get_first_valid`). Match today's date to the nearest future, the first one on ties. Validate each option, compute its days to expiry, with a 30-day fallback, and build the stored item and its id.
- **Dashboards.** Normalise option types and column aliases. Parse an id back into its dates, type and strike, and back-fill missing columns from it. Choose the scrape dates offered and the default selection. Keep the expiries that have both a call and a put.

Numbers are exact decimals: an integer mantissa and a scale. NaN and the signed infinities are kept apart. Python's `float()`, `int()`, `str()` of a float, `str()` of a `Decimal` and the strings of `datetime` are written out as functions over that representation. The solver, the clock, the HTML parser and DynamoDB become parameters or plain sequences.

The model follows the code wherever the code and its docstrings or comments disagree:
- `calculate_iv_all` parses the expiry before looking for a future, so an unreadable expiry raises even when there is no future for it.
- `add_implied_volatility` of the mibian copy asks the solver about every row, with no positivity guard.
- The mibian copy compares a `None` from the solver with 500. The `TypeError` sends the row to the except branch, which appends a second `None` to `IV_raw`. Assigning that longer list to the frame raises `ValueError`, and this ends `calculate_iv_all` (`Volatility.MibianNoneRaises`).
- `str(strike).replace('.', '')` turns the float `14000.0` into `140000`. This is reproduced, not fixed (`NumberFacts.IntegralStrikeTimesTen`, `Records.IntegralStrikePart`).

## Model

| member | source | states |
|---|---|---|
| Text.LStrip | iv_smile_project/lambda/app_futuros2.py:12 | `lstrip()` drops exactly the leading whitespace: the result is a suffix, it starts with a non-space, and everything before it is whitespace |
| Text.RStrip | iv_smile_project/lambda/app_futuros2.py:12 | `rstrip()` drops exactly the trailing whitespace: the result is a prefix, it ends with a non-space, and everything after it is whitespace |
| Text.StripIdempotent | iv_smile_project/lambda/app_futuros2.py:12 | stripping twice is stripping once |
| Text.StripLower | iv_smile_project/app/iv_smile_app.py:535 | `lower()` and `strip()` commute, so `tipo.lower().strip()` is also `strip().lower()` |
| Text.LowerEqualsIff | lambda/scraper/volatility.py:26 | comparing a word case-insensitively is comparing its `lower()` with the lower-case name, in both directions |
| Text.ReplaceByEmpty | lambda/scraper/volatility.py:84 | `s.replace('.', '')` deletes every dot |
| Text.ReplaceByChar | lambda/scraper/volatility.py:84 | `s.replace(',', '.')` turns every comma into a dot and changes nothing else |
| Text.ReplaceAbsent | iv_smile_project/lambda/scraper_lambda.py:20 | replacing a pattern that does not occur returns the string unchanged |
| Text.SplitOn | app/iv_smile_app_v3.py:305 | `split('#')` returns at least one part and no part holds the separator |
| Text.SplitJoin | app/iv_smile_app_v3.py:305 | joining the parts of `split(c)` with `c` gives the string back |
| Text.SplitJoinParts | iv_smile_project/lambda/iv_lambda.py:191 | splitting a `#`-joined id gives back its parts when no part holds `#` |
| Text.SplitWs | lambda/scraper/volatility.py:26 | every field of `split()` is a non-empty run without whitespace |
| Text.SplitWsThree | lambda/scraper/volatility.py:26-27 | three words joined by single spaces split back into exactly those three words |
| Text.RStripChar | iv_smile_project/lambda/iv_lambda.py:263 | `rstrip('s')` removes exactly the trailing run of `s`: a prefix not ending in `s`, followed only by `s` |
| Text.Take | iv_smile_project/app/iv_smile_app_v2.py:82 | `s[:10]` is the prefix of length `min(len(s), 10)` |
| Text.StrLessTotal | iv_smile_project/app/iv_smile_app.py:131-132 | Python's string order is total on distinct strings, so `sorted` orders any scrape dates |
| Text.StrLessTransitive | iv_smile_project/app/iv_smile_app.py:131-132 | Python's string order is transitive |
| Numbers.NatDigits | lambda/scraper/volatility.py:22 | the zero-padded digits of `n` are at least `width` digits long and denote `n` |
| Numbers.ParseFloat | lambda/scraper/volatility.py:84 | `float(s)` of a blank string fails |
| Numbers.Normalize | iv_smile_project/lambda/iv_lambda.py:291 | removing trailing fractional zeros keeps the value, never increases the scale, and leaves a trailing zero only at scale zero |
| Numbers.ReprDecimal | iv_smile_project/lambda/app_opciones2.py:29 | the digits `str(float)` prints keep the value and always show at least one decimal place |
| Numbers.LocaleNormalize | lambda/scraper/volatility.py:84 | `replace('.', '').replace(',', '.')` deletes the dots, then maps the commas to dots, and leaves no comma |
| Numbers.Truncate | app/iv_smile_app_v3.py:308 | `int(x)` of a finite float truncates toward zero: the result is within one of `x`, on the side of zero |
| Numbers.DigitsValueBound | lambda/scraper/volatility.py:29 | a string of `n` digits denotes a number below `10^n` |
| NumberFacts.ParseDecimalText | iv_smile_project/lambda/iv_lambda.py:293 | `float(str(Decimal(d)))` gives back exactly `d` |
| NumberFacts.ParseIntText | lambda/scraper/volatility.py:29-31 | `int(str(n)) == n` for every integer |
| NumberFacts.ParseFloatRepr | iv_smile_project/lambda/iv_lambda.py:250 | `float(str(x))` gives back a float of the same value, and the same NaN or infinity |
| NumberFacts.ParseNanRepr | iv_smile_project/lambda/iv_lambda.py:255 | `float('nan')` is NaN |
| NumberFacts.ParseInfRepr | iv_smile_project/lambda/iv_lambda.py:255 | `float('inf')` and `float('-inf')` are the two infinities |
| NumberFacts.LocaleThousandsComma | iv_smile_project/lambda/app_opciones2.py:18-20 | a Spanish amount `a.b,c` reads as the decimal with digits `abc` and `len(c)` decimal places |
| NumberFacts.LocaleThousandsOnly | iv_smile_project/lambda/app_opciones2.py:18-20 | without a comma every dot is a thousands separator: `a.b` reads as the integer `ab` |
| NumberFacts.LocaleOfRepr | iv_smile_project/lambda/iv_lambda.py:188 | the locale conversion of `str(x)` for a finite float drops the decimal point and reads the digits of `repr(x)` as an integer |
| NumberFacts.IntegralStrikeTimesTen | iv_smile_project/lambda/iv_lambda.py:250 | an integral float `n` prints as `n.0`, so the locale conversion gives back `10 * n` |
| NumberExamples.LocaleExample | iv_smile_project/lambda/scraper_lambda.py:27 | `"14.000,50"` reads as 14000.5 |
| NumberExamples.StrikeQuirkExample | iv_smile_project/lambda/iv_lambda.py:250 | the float 14000.0 prints as `14000.0` and the conversion reads it back as 140000 |
| Dates.MakeDate | lambda/scraper/volatility.py:34 | `datetime(year, month, day)` succeeds exactly on a valid calendar date; otherwise it raises `ValueError`, or `OverflowError` for an argument outside the C `int` range |
| Dates.DaysInMonth | lambda/scraper/volatility.py:34 | a month has between 28 and 31 days |
| Dates.Ordinal | iv_smile_project/lambda/iv_lambda.py:56 | `toordinal()` numbers the days from 1 |
| Dates.OrdinalOrder | iv_smile_project/lambda/iv_lambda.py:56 | day numbers follow calendar order in both directions, and two dates are equal exactly when their day numbers are |
| Dates.NextDay | iv_smile_project/lambda/iv_lambda.py:268 | the next calendar day is valid, later, and one day number further on |
| Dates.DaysFromNow | lambda/scraper/volatility.py:73 | `(expiry - now).days` is the floor of the exact day difference, counting the time of day |
| Dates.DayField | lambda/scraper/volatility.py:22 | `%d` reads only a day from 1 to 31 |
| Dates.MonthField | lambda/scraper/volatility.py:22 | `%m` reads only a month from 1 to 12 |
| Dates.YearField | lambda/scraper/volatility.py:22 | `%Y` reads only a year from 0 to 9999 |
| Dates.DateOfFields | lambda/scraper/volatility.py:22 | the fields name a date exactly when all three were read and form a valid date |
| Dates.StrptimeDMY | lambda/scraper/volatility.py:22 | `strptime(s, "%d/%m/%Y")` yields only valid dates |
| Dates.StrptimeYMD | iv_smile_project/lambda/iv_lambda.py:45 | `strptime(s, "%Y-%m-%d")` yields only valid dates |
| Dates.StrptimeDMYFields | lambda/scraper/volatility.py:22 | `dd/mm/yyyy` text reads as the date its three slash-free fields name |
| Dates.StrptimeDMYText | lambda/scraper/volatility.py:22 | `strftime("%d/%m/%Y")` of a date reads back as that date |
| Dates.StrptimeIsoText | iv_smile_project/lambda/iv_lambda.py:45 | `str(date)` reads back through `%Y-%m-%d` as that date |
| Dates.FindFolded | iv_smile_project/app/meff_scraper_classes.py:100 | a month name found equals the text ignoring case; when none is found, no name matches |
| Dates.EnglishMonth | iv_smile_project/app/meff_scraper_classes.py:100 | `%b` reads a month 1 to 12 whose C-locale abbreviation equals the text ignoring case |
| Dates.StrptimeDayMonthYear | iv_smile_project/app/meff_scraper_classes.py:100 | `strptime(s, "%d %b. %Y")` yields only valid dates |
| Dates.DayMonthYearFields | iv_smile_project/lambda/scraper/meff_scraper_classes.py:128 | `day month. year` text reads as the date its day, English month and year fields name |
| Dates.UnknownMonthRejected | iv_smile_project/lambda/scraper/meff_scraper_classes.py:128 | a month word that is not an English abbreviation fails the `%d %b. %Y` parse |
| Dates.SpanishAbbrev | lambda/scraper/volatility.py:10-14 | each month has its dotted Spanish abbreviation in `SPANISH_MONTHS`, mapping back to that month |
| Dates.ParseSpanishDate | lambda/scraper/volatility.py:16-34 | `parse_spanish_date` yields only valid dates |
| Dates.SpanishFallbackErrors | lambda/scraper/volatility.py:26-33 | when `dd/mm/yyyy` fails, the parse fails unless there are exactly three words with integer day and year and a known month, and it succeeds only on such words |
| Dates.ParseSpanishDMY | iv_smile_project/lambda/scraper/volatility.py:18-19 | every valid date written `dd/mm/yyyy` reads back as itself |
| Dates.ParseSpanishWords | iv_smile_project/lambda/scraper/volatility.py:22-31 | every valid date written as MEFF prints it, `day abbreviation year`, reads back as itself |
| Dates.SpanishTextWords | lambda/scraper/volatility.py:26 | a Spanish expiry text has no slash and lower-cases and splits into its day, abbreviation and year |
| DateExamples.NumericExample | iv_smile_project/tests/test_volatility.py:6-7 | `"16/05/2025"` parses to 2025-05-16 |
| DateExamples.WordsExample | iv_smile_project/tests/test_volatility.py:10-11 | `"16 may. 2025"` parses to 2025-05-16 |
| DateExamples.InvalidExample | iv_smile_project/tests/test_volatility.py:14-16 | `"invalid-date"` raises `ValueError` |
| DateExamples.FuturesMayExample | iv_smile_project/lambda/app_futuros2.py:41 | a May futures expiry reads through `%d %b. %Y`, because the Spanish and English abbreviations agree there |
| DateExamples.SpanishOnlyAbbrevs | iv_smile_project/lambda/app_futuros2.py:41 | `ene`, `abr`, `ago` and `dic` are not English abbreviations, so those expiries fail `%b` |
| Collect.FilterMap | iv_smile_project/lambda/app_futuros2.py:31-34 | a row loop that appends at most one record per row keeps no more records than rows |
| Collect.FilterMapAppend | iv_smile_project/lambda/app_futuros2.py:31-34 | rows are scanned independently: the records of `a + b` are those of `a` followed by those of `b` |
| Collect.SkippedRow | iv_smile_project/lambda/app_futuros2.py:67-68 | a row that yields nothing leaves the records of every other row as they are |
| Collect.FilterMapMember | iv_smile_project/lambda/app_futuros2.py:31-34 | a record comes out exactly when some row yields it |
| Collect.FilterMapTotal | iv_smile_project/lambda/app_futuros2.py:31-34 | when every row yields a record, there is one record per row, in order |
| Collect.ScanRows | iv_smile_project/lambda/scraper_lambda.py:121-137 | a loop that may raise keeps no more records than rows |
| Collect.ScanRowsStays | iv_smile_project/lambda/scraper_lambda.py:121-137 | once a row raises, later rows change nothing |
| Collect.ScanRowsStops | iv_smile_project/lambda/scraper_lambda.py:121-137 | the loop stops exactly when some row raises, and then with that row's error |
| Collect.ScanRowsTotal | iv_smile_project/lambda/scraper_lambda.py:121-137 | a loop in which no row raises keeps the same records as the skipping loop |
| Collect.ScanRowsMember | iv_smile_project/lambda/scraper_lambda.py:121-137 | every record kept comes from a row that yields it |
| Collect.TryMap | iv_smile_project/lambda/app_opciones2.py:58-59 | `Series.apply` succeeds exactly when every element converts, with one result per element in order; otherwise it fails with some element's error |
| Records.Str | iv_smile_project/lambda/iv_lambda.py:184 | `str()` of a string is the string itself |
| Records.ToFloat | iv_smile_project/lambda/iv_lambda.py:255 | `float(v)` raises `TypeError` on `None` and `ValueError` on unreadable text; a readable string gives what `float()` reads and a number gives itself |
| Records.FirstValidIndex | iv_smile_project/lambda/iv_lambda.py:172-177 | the position found is the first key whose value is not `None`, `''`, `'NaN'` or `'-'`; every key before it holds a sentinel |
| Records.FirstValid | iv_smile_project/lambda/iv_lambda.py:172-177 | the answer is `None` exactly when every key holds a sentinel; otherwise it is the non-sentinel value of one of the keys |
| Records.GetFirstValid | iv_smile_project/app/iv_smile_app.py:525-530 | the loop returns what `FirstValid` specifies |
| Records.FirstValidSkips | iv_smile_project/lambda/iv_lambda.py:172-177 | keys listed ahead that all hold sentinels do not change the answer |
| Records.DropNone | iv_smile_project/lambda/app_futuros2.py:80 | the comprehension keeps exactly the fields whose value is not `None` |
| Records.DropNoneGet | iv_smile_project/lambda/iv_lambda.py:297 | dropping `None` fields changes no `get` lookup |
| Records.DropNoneIdempotent | iv_smile_project/lambda/app_opciones2.py:90 | dropping `None` fields twice is dropping them once |
| Records.TypeNorm | iv_smile_project/lambda/iv_lambda.py:263 | `str(tipo).lower().rstrip('s')` is lower-case, does not end in `s`, and is a prefix of the lower-cased text |
| Records.TypeNormIdempotent | iv_smile_project/lambda/iv_lambda.py:185 | normalising a type twice is normalising it once |
| Records.ExpiryPart | iv_smile_project/lambda/iv_lambda.py:184 | the expiry segment is the first ten characters of a truthy value, and `''` otherwise |
| Records.TypePart | iv_smile_project/lambda/iv_lambda.py:185 | the type segment is the normalised type of a truthy value, and `''` otherwise |
| Records.StrikePart | iv_smile_project/lambda/iv_lambda.py:186-190 | the strike segment is `str(float(...))` of the locale conversion when it reads, and `str(strike)` when it raises |
| Records.IdSegments | iv_smile_project/lambda/iv_lambda.py:179-193 | the id has four segments with a strike and three without, in the order scrape date, expiry, type, strike |
| Records.IdRoundTrip | iv_smile_project/lambda/iv_lambda.py:191-193 | an id splits back into its segments when no segment holds `#` |
| Records.FloatStrikePart | iv_smile_project/lambda/iv_lambda.py:188 | a float strike reaches the id as the digits of its `repr` read as an integer |
| Records.IntegralStrikePart | iv_smile_project/lambda/iv_lambda.py:188 | an integral float strike `n` reaches the id as `10 * n` |
| Records.DecimalDefault | iv_smile_project/lambda/iv_lambda.py:195-201 | `decimal_default` raises `TypeError` on a non-`Decimal` and `InvalidOperation` on an infinity; NaN becomes the float NaN; an `int` comes only from an integral finite `Decimal`, with the same value; a float comes only from a non-integral one |
| Records.IntegralValue | iv_smile_project/lambda/iv_lambda.py:197-198 | `int(obj)` of an integral `Decimal` keeps its value |
| MeffPage.LimpiarTexto | iv_smile_project/lambda/scraper_lambda.py:18-21 | a string comes back without non-breaking spaces and without edge whitespace; other values come back unchanged |
| MeffPage.CleanValue | iv_smile_project/lambda/app_futuros2.py:10-13 | a string comes back without edge whitespace; other values come back unchanged |
| MeffPage.CleanersOnPlainText | iv_smile_project/lambda/app_opciones2.py:10-13 | on text without `&` or non-breaking spaces both cleaners only strip |
| MeffPage.CleanersAgree | iv_smile_project/lambda/scraper_lambda.py:18-21 | on text without non-breaking spaces `limpiar_texto` and `clean_value` agree |
| MeffPage.ConvertirAFloat | iv_smile_project/lambda/scraper_lambda.py:23-29 | a number comes out exactly for a non-empty string other than `'-'` that the locale conversion reads, and it is that reading |
| MeffPage.CleanAndConvert | iv_smile_project/lambda/app_opciones2.py:15-22 | `clean_and_convert` raises `AttributeError` exactly on a number; a string other than `''` and `'-'` gives its locale reading; only such a string gives a number |
| MeffPage.ConvertersAgree | test_meff_opciones.py:11-18 | on strings and `None` the two converters give the same answer |
| MeffPage.ConvertSpanishAmount | iv_smile_project/lambda/scraper_lambda.py:27 | a Spanish amount `a.b,c` reads, through either converter, as the decimal with digits `abc` and `len(c)` places |
| MeffPage.ConvertExample | iv_smile_project/lambda/scraper_lambda.py:23-29 | `convertir_a_float("14.000,50")` is 14000.5 |
| MeffPage.SafeDecimal | iv_smile_project/lambda/app_futuros2.py:51-56 | `safe_decimal` gives `None` exactly for `None`, NaN and the infinities; otherwise a finite `Decimal` of the same value, written as `str(float)` writes it |
| MeffPage.FloatCell | iv_smile_project/lambda/app_opciones2.py:58-59 | a `None` stored in a float column reads back as NaN; any number reads back as itself |
| MeffPage.ReprNumber | iv_smile_project/lambda/scraper_lambda.py:131-132 | `Decimal(str(x))` keeps a finite value and its `repr` digits, and maps NaN and the infinities to themselves without raising |
| MeffPage.FloatReprNoHash | iv_smile_project/lambda/scraper_lambda.py:128 | `str()` of a float holds no `#`, so it can be an id segment |
| MeffPage.TimestampText | iv_smile_project/lambda/app_futuros2.py:48 | `str()` of a date cell is `NaT` when missing, and otherwise its ISO date followed by ` 00:00:00`, with no `#` |
| ExpiryCodes.MapTexts | iv_smile_project/lambda/scraper_lambda.py:37-40 | the loop builds the dictionary of options with a non-empty value, a later option overwriting an earlier one |
| ExpiryCodes.ComprehensionTexts | iv_smile_project/lambda/app_opciones2.py:36-37 | the comprehension raises `KeyError` exactly when some option has no value; otherwise it keeps every option, empty values included |
| ExpiryCodes.ExpiryTextsDomain | iv_smile_project/lambda/scraper_lambda.py:38-40 | the keys are exactly the values some option writes |
| ExpiryCodes.ExpiryTextsLastWins | iv_smile_project/lambda/scraper_lambda.py:38-40 | a key holds the stripped text of the last option that writes it |
| ExpiryCodes.LoopWithinComprehension | test_meff_opciones.py:26-27 | every key of the loop's dictionary is in the comprehension's, with the same text |
| ExpiryCodes.LookupLambda | iv_smile_project/lambda/scraper_lambda.py:47-50 | any expiry found is a text of the dictionary |
| ExpiryCodes.LookupClean | iv_smile_project/lambda/app_opciones2.py:45-48 | any expiry found is a text of the dictionary |
| ExpiryCodes.LookupsAgree | test_meff_opciones.py:36-42 | the retry on the unchanged code finds nothing new, so both lookups agree |
| ExpiryCodes.OpeFallsBackOnOce | iv_smile_project/lambda/scraper_lambda.py:47-50 | a missing put code `OPE…` falls back on the call code `OCE…` with the same tail |
| ExpiryCodes.TypeLambda | iv_smile_project/lambda/scraper_lambda.py:46 | the type is `call` exactly when the code contains `C`, and `put` otherwise |
| ExpiryCodes.TypeApp | iv_smile_project/lambda/app_opciones2.py:44 | the type raises `IndexError` exactly on a code shorter than two characters; otherwise it is `call` exactly when the second character is `C` |
| ExpiryCodes.TypeTest | test_meff_opciones.py:50 | the same rule spelt `CALL`/`PUT`, with the same `IndexError` |
| ExpiryCodes.TypeRulesAgree | iv_smile_project/lambda/scraper_lambda.py:46 | on MEFF codes `O` + `C`/`P` + `E` + digits the three type rules agree, and give call exactly for `C` |
| MeffScraper.PutTwinIsPut | iv_smile_project/lambda/scraper/meff_scraper_classes.py:33-34 | the put twin of a call code starts with `OPE` and differs from the call code |
| MeffScraper.ReadExpiry | iv_smile_project/lambda/scraper/meff_scraper_classes.py:31 | an option's text reads only as a valid date |
| MeffScraper.Vencimientos | iv_smile_project/lambda/scraper/meff_scraper_classes.py:24-26 | no `OpStrike` drop-down gives the empty map; every expiry in the map is a valid date |
| MeffScraper.MapearVencimientos | iv_smile_project/lambda/scraper/meff_scraper_classes.py:22-37 | the loop builds the map `Vencimientos` specifies |
| MeffScraper.ExpiriesDomain | iv_smile_project/lambda/scraper/meff_scraper_classes.py:29-34 | the keys are exactly the codes some option with a readable date registers, directly or as the put twin of its call code |
| MeffScraper.ExpiriesLastWins | iv_smile_project/app/meff_scraper_classes.py:26-33 | a key holds the date of the last option that registers it |
| MeffScraper.CallRegistersTwin | iv_smile_project/lambda/scraper/meff_scraper_classes.py:32-34 | a call option with a readable date registers its put twin with the same date |
| MeffScraper.UnreadableOptionSkipped | iv_smile_project/app/meff_scraper_classes.py:34-35 | an option whose text is not a date changes nothing, wherever it stands |
| MeffScraper.TipoOpcion | iv_smile_project/app/meff_scraper_classes.py:49 | the type is `CALL` exactly when the code starts with `OCE`, and `PUT` otherwise |
| MeffScraper.Precio | iv_smile_project/lambda/scraper/meff_scraper_classes.py:65-71 | the Lambda copy always has a price: the last cell's number, or NaN when it does not read; the dashboard copy reads cell 12, and has no price when there is no cell 12 |
| MeffScraper.RowQuote | iv_smile_project/lambda/scraper/meff_scraper_classes.py:53-84 | a row is kept exactly when it has a cell, its strike reads, its price rule succeeds and its code has an expiry; a kept row carries the code's type and expiry, the strike, the price and the days from today |
| MeffScraper.Opciones | iv_smile_project/lambda/scraper/meff_scraper_classes.py:39-88 | no table raises `RuntimeError`; the Lambda copy raises when no header mentions `ant`; otherwise there are no more records than rows |
| MeffScraper.FindAntHeader | iv_smile_project/lambda/scraper/meff_scraper_classes.py:47-48 | the scan finds a header exactly when some stripped, lower-cased header contains `ant` |
| MeffScraper.ScanOptionRows | iv_smile_project/app/meff_scraper_classes.py:46-67 | the row loop collects the records `Quotes` specifies |
| MeffScraper.ObtenerOpciones | iv_smile_project/app/meff_scraper_classes.py:38-67 | the method returns what `Opciones` specifies |
| MeffScraper.QuotesFromRows | iv_smile_project/lambda/scraper/meff_scraper_classes.py:53-84 | every record comes from a row with a readable strike and a mapped expiry |
| MeffScraper.LambdaKeepsUnpricedRow | iv_smile_project/lambda/scraper/meff_scraper_classes.py:68-71 | in the Lambda copy a row with an unreadable price is kept, with price NaN |
| MeffScraper.AppNeedsCellTwelve | iv_smile_project/app/meff_scraper_classes.py:52-53 | in the dashboard copy a kept row has a cell 12 that reads as its price |
| MeffScraper.DroppedRowIsolated | iv_smile_project/app/meff_scraper_classes.py:65-66 | a dropped row leaves the other records as they are |
| MeffScraper.KeptRowsExact | iv_smile_project/lambda/scraper/meff_scraper_classes.py:112 | a row is kept exactly when its first cell is not `Volumen Total` |
| MeffScraper.LowerNames | iv_smile_project/lambda/scraper/meff_scraper_classes.py:116 | every column name is stripped and lower-cased, one for one |
| MeffScraper.RenameVencimiento | iv_smile_project/lambda/scraper/meff_scraper_classes.py:117 | exactly the columns named `vencimiento` become `fecha_venc` |
| MeffScraper.AntColumn | iv_smile_project/lambda/scraper/meff_scraper_classes.py:120-124 | the price column is the first name containing `ant`, or the last column when none does |
| MeffScraper.ColumnNamed | iv_smile_project/lambda/scraper/meff_scraper_classes.py:128 | `df[name]` reads the first column of that name, if there is one |
| MeffScraper.PrecioUltimo | iv_smile_project/lambda/scraper/meff_scraper_classes.py:127 | `'-'` and missing cells become NaN, numbers stay as they are, and other text converts exactly when `float()` reads it |
| MeffScraper.FechaVencLambda | iv_smile_project/lambda/scraper/meff_scraper_classes.py:128 | a cell converts exactly when it is text whose stripped form reads as `%d %b. %Y`, and only to a valid date |
| MeffScraper.FechaVencApp | iv_smile_project/app/meff_scraper_classes.py:100 | a cell converts exactly when `str()` of it, stripped, reads as `%d %b. %Y`, and only to a valid date |
| MeffScraper.ToNumeric | iv_smile_project/app/meff_scraper_classes.py:101 | `to_numeric(errors="coerce")` turns unreadable text into NaN and keeps numbers |
| MeffScraper.Pair | iv_smile_project/lambda/scraper/meff_scraper_classes.py:129 | the answer pairs the date and price columns row by row |
| MeffScraper.AssembleRows | iv_smile_project/lambda/scraper/meff_scraper_classes.py:127-129 | the conversions succeed exactly when every kept row's price and date convert, giving one row per kept row with its converted date and price |
| MeffScraper.ParseFuturosLambda | iv_smile_project/lambda/scraper/meff_scraper_classes.py:104-129 | a table without columns raises `IndexError` |
| MeffScraper.ParseFuturosApp | iv_smile_project/app/meff_scraper_classes.py:83-104 | a table without columns raises `IndexError` |
| MeffScraper.KeptRowsNoTotals | iv_smile_project/app/meff_scraper_classes.py:89 | every kept row is a table row and is not the totals row |
| MeffScraper.LambdaDashIsNaN | iv_smile_project/lambda/scraper/meff_scraper_classes.py:127 | in the Lambda copy a `'-'` or missing price becomes NaN |
| MeffScraper.AssembleTotalPrice | iv_smile_project/app/meff_scraper_classes.py:100-101 | when the price conversion cannot fail, only the date column decides success |
| MeffScraper.AppFuturesRows | iv_smile_project/app/meff_scraper_classes.py:92-104 | in the dashboard copy the date is the first column and the price is the last column coerced to a number; the parse fails exactly when some kept date does not read |
| MeffScraper.TotalsRowDropped | iv_smile_project/app/meff_scraper_classes.py:89 | the totals row contributes nothing, wherever it stands |
| LambdaIngest.RowRecord | iv_smile_project/lambda/scraper_lambda.py:44-61 | a row gives a record exactly when it has cells; the record has the code's type, the expiry looked up and read day first, the converted strike and last cell, and the days from today exactly when the expiry reads |
| LambdaIngest.ReadRow | iv_smile_project/lambda/scraper_lambda.py:45-61 | one pass of the loop gives the row's record |
| LambdaIngest.CollectOptions | iv_smile_project/lambda/scraper_lambda.py:43-61 | the loop collects the records of the rows, in page order |
| LambdaIngest.ObtenerOpcionesMeff | iv_smile_project/lambda/scraper_lambda.py:31-66 | the method returns what `Opciones` specifies |
| LambdaIngest.RowWithoutCellsSkipped | iv_smile_project/lambda/scraper_lambda.py:51-53 | a row without cells is skipped, wherever it stands |
| LambdaIngest.RecordPerRow | iv_smile_project/lambda/scraper_lambda.py:44-61 | when every row has cells there is one record per row, in order |
| LambdaIngest.OpcionesFails | iv_smile_project/lambda/scraper_lambda.py:63-65 | the scrape raises `KeyError` exactly when no row has a cell, because the empty frame has no `fecha_venc` column |
| LambdaIngest.OptionItem | iv_smile_project/lambda/scraper_lambda.py:121-135 | an unpriced option is skipped; a priced one without days raises `ValueError` at `int`; otherwise the item has exactly its seven fields, with the option's id, its non-NaN price, its strike and its integer days |
| LambdaIngest.ItemFields | iv_smile_project/lambda/scraper_lambda.py:127-135 | the option item has exactly its seven fields, with the id, the `Decimal` strike and price, and the integer days |
| LambdaIngest.SaveOptions | iv_smile_project/lambda/scraper_lambda.py:119-137 | the loop writes the items `OptionWrites` specifies, stopping at the first error |
| LambdaIngest.WrittenOptionsArePriced | iv_smile_project/lambda/scraper_lambda.py:122-125 | every option item written carries a price that is a number, and the id of a priced option |
| LambdaIngest.OptionWritesStop | iv_smile_project/lambda/scraper_lambda.py:121-137 | the loop runs to the end exactly when every priced option has its days; otherwise it stops with `ValueError` |
| LambdaIngest.OptionIdSplits | iv_smile_project/lambda/scraper_lambda.py:128 | an option id splits back into the scrape date, the expiry, the type and the strike |
| LambdaIngest.FuturesItem | iv_smile_project/lambda/scraper_lambda.py:106-112 | the futures item has exactly its five fields, the `Decimal` of the last price and the ISO expiry |
| LambdaIngest.FuturesFields | iv_smile_project/lambda/scraper_lambda.py:106-112 | the futures dict has exactly its five fields, holding the given id, date and price |
| LambdaIngest.FuturesItems | iv_smile_project/lambda/scraper_lambda.py:104-114 | one item per futures row, in order |
| LambdaIngest.SaveFutures | iv_smile_project/lambda/scraper_lambda.py:101-114 | the loop writes the items `FuturesItems` specifies |
| LambdaIngest.FuturesIdSplits | iv_smile_project/lambda/scraper_lambda.py:107 | a futures id is the scrape date, the expiry and `futures`, and splits back into them |
| LambdaIngest.HandlerWrites | iv_smile_project/lambda/scraper_lambda.py:93-137 | when the options scrape raises, nothing is written and the handler raises `KeyError` |
| LambdaIngest.LambdaHandler | iv_smile_project/lambda/scraper_lambda.py:68-142 | the handler writes what `HandlerWrites` specifies |
| AppIngest.CleanText | iv_smile_project/lambda/app_opciones2.py:52-53 | a cleaned cell has no edge whitespace |
| AppIngest.RawOptionOf | iv_smile_project/lambda/app_opciones2.py:42-54 | the dashboard Lambda raises `IndexError` on every code shorter than two characters, the test script only on such a code in a row it keeps; a row is kept exactly when it has at least two cells, with its first and last cell cleaned, the expiry looked up and the type |
| AppIngest.CollectRawOptions | test_meff_opciones.py:34-52 | the row loop returns what `RawOptionsResult` specifies |
| AppIngest.RawOptionsFail | iv_smile_project/lambda/app_opciones2.py:42-54 | the loop fails exactly when some row raises, and then with `IndexError` |
| AppIngest.RawOptionFromRow | test_meff_opciones.py:44-52 | each raw option comes from a row with at least two cells, holding its cleaned strike and last cell |
| AppIngest.TypeTestUpper | test_meff_opciones.py:50 | the test script's type is the dashboard Lambda's in capitals |
| AppIngest.RowCopiesAgree | test_meff_opciones.py:34-52 | on a code of two or more characters both copies read a row alike, up to the type's case |
| AppIngest.CopiesAgree | iv_smile_project/lambda/app_opciones2.py:42-54 | on codes of two or more characters both copies finish the loop and keep the same rows, up to the type's case |
| AppIngest.Frame | iv_smile_project/lambda/app_opciones2.py:56-59 | one frame row per raw option, each converted |
| AppIngest.ObtenerDatosMeff | iv_smile_project/lambda/app_opciones2.py:31-60 | the scrape returns what `ObtenerDatos` specifies |
| AppIngest.ObtenerDatosFails | iv_smile_project/lambda/app_opciones2.py:36-54 | the scrape succeeds exactly when every option has a value and no row raises; a missing value raises `KeyError` |
| AppIngest.ItemFields | iv_smile_project/lambda/app_opciones2.py:81-90 | the option item holds its id, scrape date, expiry and type, and its strike and `Ant` exactly when not `None`, with no other field |
| AppIngest.OptionItem | iv_smile_project/lambda/app_opciones2.py:78-90 | a row is skipped exactly when its expiry, type or strike is missing; a written item has no `None`, the row's id, a strike exactly when finite and `Ant` exactly when present and finite |
| AppIngest.SaveOptions | iv_smile_project/lambda/app_opciones2.py:78-92 | the loop writes the items `OptionItems` specifies |
| AppIngest.LambdaHandler | iv_smile_project/lambda/app_opciones2.py:66-94 | the handler writes what `HandlerWrites` specifies |
| AppIngest.IncompleteRowSkipped | iv_smile_project/lambda/app_opciones2.py:79-80 | an incomplete row writes nothing, wherever it stands |
| AppIngest.WrittenItemsComplete | iv_smile_project/lambda/app_opciones2.py:79-90 | every item written comes from a complete row, holds no `None`, and has that row's id |
| AppIngest.GenerarIdSplits | iv_smile_project/lambda/app_opciones2.py:62-64 | an id splits back into the scrape date, the expiry, the type and the strike |
| AppFutures.CleanCells | iv_smile_project/lambda/app_futuros2.py:34 | each cell of a kept row goes through `clean_value`, one for one |
| AppFutures.CollectFutures | iv_smile_project/lambda/app_futuros2.py:31-34 | the loop keeps the rows `KeptRows` specifies: those of fourteen cells, cleaned, in order |
| AppFutures.KeptRowsFrom | iv_smile_project/lambda/app_futuros2.py:33-34 | a row is kept exactly when it has fourteen cells, and then as its cleaned cells |
| AppFutures.KeptRowsWidth | iv_smile_project/lambda/app_futuros2.py:36-40 | every kept row has fourteen cells, so the named columns line up |
| AppFutures.ConvertRow | iv_smile_project/lambda/app_futuros2.py:41-43 | the expiry reads through `%d %b. %Y`, `Último` and `Anterior` through `clean_and_convert`, and the type and volume stay as text |
| AppFutures.ConvertFrame | iv_smile_project/lambda/app_futuros2.py:41-43 | one converted row per kept row, in order |
| AppFutures.ObtenerFuturosMeff | iv_smile_project/lambda/app_futuros2.py:24-44 | the method returns what `FuturesFrame` specifies |
| AppFutures.ItemFields | iv_smile_project/lambda/app_futuros2.py:69-80 | the futures item holds its id, scrape date, expiry, type and volume, and `ultimo` and `anterior` exactly when not `None`, with no other field |
| AppFutures.FutureItem | iv_smile_project/lambda/app_futuros2.py:67-80 | a row is skipped exactly when its expiry did not parse; a written item has no `None`, the row's id and volume, and each price exactly when it is present and finite |
| AppFutures.SaveFutures | iv_smile_project/lambda/app_futuros2.py:66-81 | the loop writes the items `FutureItems` specifies |
| AppFutures.LambdaHandler | iv_smile_project/lambda/app_futuros2.py:58-82 | the handler writes the items of the scraped frame |
| AppFutures.UndatedRowSkipped | iv_smile_project/lambda/app_futuros2.py:67-68 | a row whose expiry did not parse writes nothing, wherever it stands |
| AppFutures.WrittenFuturesDated | iv_smile_project/lambda/app_futuros2.py:66-81 | every item written comes from a dated row, holds no `None`, and has that row's id and volume |
| AppFutures.GenerarIdSplits | iv_smile_project/lambda/app_futuros2.py:46-49 | an id splits back into the scrape date, the expiry and the type |
| Volatility.FirstMatch | lambda/scraper/volatility.py:65 | the strike column is the first header whose upper case contains `STRIKE` |
| Volatility.LastMatch | lambda/scraper/volatility.py:66 | the price column is the last header whose upper case contains `ANT` |
| Volatility.Columns | iv_smile_project/lambda/scraper/volatility.py:47-53 | the selection raises `KeyError` exactly when no header mentions `STRIKE` or none mentions `ANT`; otherwise it picks a `STRIKE` header and an `ANT` header |
| Volatility.RowResult | iv_smile_project/lambda/scraper/volatility.py:62-92 | a row has a raw volatility exactly when its cells convert, the copy asks the solver (in the guarded copy only for positive price, future, strike and days) and the solver returns a value, which is then the raw one; a row is doubled in `IV_raw`, with `None` in both columns, exactly when the copy compares a `None` from the solver with the ceiling; the reported IV is the raw one exactly when it is below the ceiling, and `None` otherwise |
| Volatility.UnguardedAsks | iv_smile_project/lambda/scraper/volatility.py:75-92 | without a guard the solver is asked about every row whose cells convert; its value is the raw one, and without a `None` test a `None` from it doubles the row |
| Volatility.DaysToExpiry | lambda/scraper/volatility.py:73 | the days to expiry are at least one and at least the true day count |
| Volatility.DaysToExpiryCases | iv_smile_project/lambda/scraper/volatility.py:56 | an expiry two or more calendar days ahead keeps its day count; one on or before today counts as one day |
| Volatility.Cells | lambda/scraper/volatility.py:82-91 | each row's strike and price cells are converted, one pair per row |
| Volatility.RowResults | lambda/scraper/volatility.py:80-104 | one result per row, in order, each row judged on its own cells |
| Volatility.RawColumn | iv_smile_project/lambda/scraper/volatility.py:81-92 | `iv_raw_list` has at least one entry per row, exactly one per row when no row was doubled, and then entry k is row k's raw value |
| Volatility.IvColumn | lambda/scraper/volatility.py:108 | the `IV` column holds each row's reported value, one per row |
| Volatility.AddIvShape | iv_smile_project/lambda/scraper/volatility.py:46-100 | the step raises `KeyError` exactly for missing columns and `ValueError` exactly when some row's `None` from the solver reaches the ceiling comparison; otherwise it keeps the frame and adds `IV_raw` and `IV` with one entry per row, the reported value being the raw one exactly when it is below the ceiling, and the same days, at least one, for every row |
| Volatility.LengthsMatch | iv_smile_project/lambda/scraper/volatility.py:95-96 | `IV_raw` has one entry per row, so the assignment succeeds, exactly when no row is unpaired |
| Volatility.AddIvKeeps | iv_smile_project/lambda/scraper/volatility.py:56-100 | a table the step returns keeps the input frame and a day count of at least one |
| Volatility.RowsTwice | iv_smile_project/lambda/scraper/volatility.py:82-92 | a row is doubled exactly when its cells convert, the copy asks the solver, does not test for `None`, and the solver returns `None` |
| Volatility.ScipyFailsOnColumns | lambda/scraper/volatility.py:94-110 | the scipy copy tests for `None`, so it fails only for missing columns |
| Volatility.MibianNoneRaises | iv_smile_project/lambda/scraper/volatility.py:82-97 | in the mibian copy a `None` from the solver on any row whose cells convert makes the step raise `ValueError` |
| Volatility.ScipyReported | lambda/scraper/volatility.py:94-101 | in the scipy copy every reported volatility is below 5, with positive price, future and strike |
| Volatility.FillColumns | iv_smile_project/lambda/scraper/volatility.py:62-92 | the loop appends each row's raw value, then a second `None` for a doubled row, to `iv_raw_list`, and each row's reported value to `iv_list` |
| Volatility.AddImpliedVolatility | iv_smile_project/lambda/scraper/volatility.py:34-100 | the method returns what `AddIv` specifies: `KeyError` for missing columns, `ValueError` when `IV_raw` does not have one entry per row, and otherwise the frame with both columns and the days (their properties are `Volatility.AddIvShape`) |
| Volatility.NumericIndex | lambda/scraper/volatility.py:141-149 | the position found is the first row whose price cell reads as a number that is not NaN |
| Volatility.SpotOf | lambda/scraper/volatility.py:136-149 | the future's price is the first numeric value of the last `ANT` column; there is none exactly when `ValueError` is raised |
| Volatility.ExpiryStep | lambda/scraper/volatility.py:129-152 | an expiry with no futures table, or an empty one, is skipped only after its date reads; a date that does not read raises |
| Volatility.Fechas | iv_smile_project/lambda/scraper/volatility.py:119 | the expiries of one side are exactly those of its tables |
| Volatility.SideErr | lambda/scraper/volatility.py:129-152 | the first error ends the side: later tables are not looked at |
| Volatility.SideStopsAt | iv_smile_project/lambda/scraper/volatility.py:119-142 | a table whose step raises, after tables that all completed, makes the whole side raise that same error, the `ValueError` of `add_implied_volatility` included |
| Volatility.SideKeys | iv_smile_project/lambda/scraper/volatility.py:119-142 | a side that completes holds a table exactly for the expiries that have a non-empty futures table, each with at least one day |
| Volatility.SideOkSteps | iv_smile_project/lambda/scraper/volatility.py:145-167 | a completed side also completed without its last table, and that table's step succeeded |
| Volatility.SideDates | iv_smile_project/lambda/scraper/volatility.py:120 | a side completes only when every one of its expiries reads as a date |
| Volatility.IvForSide | iv_smile_project/lambda/scraper/volatility.py:119-142 | one side's loop returns what `Side` specifies: a table per expiry that has a future, in order, or the first error raised, whether by the expiry's date, the future's price column or `add_implied_volatility` (its `KeyError` or `ValueError`) |
| Volatility.CalculateIvAll | iv_smile_project/lambda/scraper/volatility.py:103-169 | the method returns what `CalcIvAll` specifies: the calls, then the puts, or the first error either side raises |
| IvLambda.Distances | iv_smile_project/lambda/iv_lambda.py:56 | one `abs(days)` distance per candidate, in order |
| IvLambda.ArgMin | iv_smile_project/lambda/iv_lambda.py:56 | `min` picks a least value, and no earlier position holds a value as small |
| IvLambda.ClosestIndex | iv_smile_project/lambda/iv_lambda.py:56 | the candidate picked is at the least distance, and every earlier one is strictly farther |
| IvLambda.StrictDate | iv_smile_project/lambda/iv_lambda.py:48-52 | a future's `date` reads only as a valid date |
| IvLambda.StrictCandidates | iv_smile_project/lambda/iv_lambda.py:46-52 | no more candidates than futures; each is a future of the table whose `date` reads, carrying that date's day number |
| IvLambda.MasCercano | iv_smile_project/lambda/iv_lambda.py:37-58 | an empty table gives `None`; an unreadable option date raises `ValueError`; a future found is in the table and has a readable date |
| IvLambda.BuscarFuturoMasCercano | iv_smile_project/lambda/iv_lambda.py:37-58 | the method returns what `MasCercano` specifies |
| IvLambda.MasCercanoNearest | iv_smile_project/lambda/iv_lambda.py:53-56 | with a readable date and a readable future, the answer is a candidate at the least distance, with every earlier candidate strictly farther |
| IvLambda.LooseDate | iv_smile_project/lambda/iv_lambda.py:72-75 | a truthy value whose first ten characters read as a date gives only a valid date |
| IvLambda.KeyEntries | iv_smile_project/lambda/iv_lambda.py:88-97 | every date read from a future's keys is paired with that future |
| IvLambda.FirstExactIndex | iv_smile_project/lambda/iv_lambda.py:77-86 | the position found is the first pair dated exactly the option date |
| IvLambda.FlexBase | iv_smile_project/lambda/iv_lambda.py:72-75 | the option date read from its first ten characters is valid |
| IvLambda.Flexible | iv_smile_project/lambda/iv_lambda.py:60-101 | an empty table or an unreadable option date gives `None` |
| IvLambda.ExactIsClosest | iv_smile_project/lambda/iv_lambda.py:77-100 | an exact match is what the nearest search would pick anyway, so the choice is always the nearest candidate |
| IvLambda.FlexibleIsNearest | iv_smile_project/lambda/iv_lambda.py:60-101 | the future chosen is the nearest candidate, the first one on ties |
| IvLambda.ExactPreferred | iv_smile_project/lambda/iv_lambda.py:77-86 | the first future with a key dated exactly the option date is chosen |
| IvLambda.FindExact | iv_smile_project/lambda/iv_lambda.py:77-86 | the first scan returns the first exact match in scan order |
| IvLambda.CollectDates | iv_smile_project/lambda/iv_lambda.py:88-97 | the second scan collects every readable `(future, date)` pair in scan order |
| IvLambda.BuscarFuturoFlexible | iv_smile_project/lambda/iv_lambda.py:60-101 | the method returns what `Flexible` specifies |
| IvLambda.OptionDays | iv_smile_project/lambda/iv_lambda.py:265-272 | the days to expiry are at least one, and 30 when either date does not read |
| IvLambda.OptionDaysOrder | iv_smile_project/lambda/iv_lambda.py:266-268 | an expiry after the scrape date gives the true day count, and one on or before it gives one day |
| IvLambda.DecimalOfFloat | iv_smile_project/lambda/iv_lambda.py:291 | `Decimal(x)` of a float keeps its value, NaN and infinity |
| IvLambda.TipoField | iv_smile_project/lambda/iv_lambda.py:182 | the type stored in the id dictionary is either missing or the normalised type |
| IvLambda.IdForSegments | iv_smile_project/lambda/iv_lambda.py:284-289 | the stored id is the id of the option's own scrape date, expiry, type and strike |
| IvLambda.StoredIdStrike | iv_smile_project/lambda/iv_lambda.py:250 | an integral strike `n` appears in the stored id as `10 * n` |
| IvLambda.Store | iv_smile_project/lambda/iv_lambda.py:283-297 | the item has no `None` field, holds the id, type, strike, date and scrape date, and an `iv` exactly when the solver converged |
| IvLambda.ProcessFields | iv_smile_project/lambda/iv_lambda.py:244-301 | a stored option has an item carrying its id and scrape date, with no `None` field |
| IvLambda.Accept | iv_smile_project/lambda/iv_lambda.py:262-301 | the accepted option is stored with its id and scrape date, and no `None` field |
| IvLambda.ProcessOption | iv_smile_project/lambda/iv_lambda.py:237-301 | a stored option keeps the id and scrape date it was read with, and has no `None` field |
| IvLambda.SkipReasons | iv_smile_project/lambda/iv_lambda.py:244-261 | an option is skipped as incomplete exactly when a field holds a sentinel, and stored exactly when all fields are valid, the strike converts and the price converts and is positive |
| IvLambda.StoredFields | iv_smile_project/lambda/iv_lambda.py:263-295 | a stored item keeps the expiry and scrape date, the normalised type and the strike read, and has an `iv` exactly when the solver converged on the option's days |
| IvLambda.Outcomes | iv_smile_project/lambda/iv_lambda.py:237 | one outcome per option, in order |
| IvLambda.Gather | iv_smile_project/lambda/iv_lambda.py:300-301 | the ids and items gathered pair up, no more than the options |
| IvLambda.GatherCount | iv_smile_project/lambda/iv_lambda.py:298-301 | there is exactly one id per stored option |
| IvLambda.GatherKeeps | iv_smile_project/lambda/iv_lambda.py:300-301 | a property shared by every stored (id, item) pair holds for every pair gathered |
| IvLambda.TodaysOptions | iv_smile_project/lambda/iv_lambda.py:221 | the options kept are options of the scan scraped today |
| IvLambda.HandlerDateReads | iv_smile_project/lambda/iv_lambda.py:219-225 | today's date always reads back, so the future search never raises in the handler |
| IvLambda.HandlerCases | iv_smile_project/lambda/iv_lambda.py:225-233 | no future, or an empty one, gives the "no future" answer; a future without a price gives the "no price" answer; a price that does not convert is the only error |
| IvLambda.HandlerComputed | iv_smile_project/lambda/iv_lambda.py:235-310 | a computed batch pairs each id with its item, holds no `None`, and every item carries today's scrape date |
| IvLambda.GatheredBatch | iv_smile_project/lambda/iv_lambda.py:237-301 | the batch from options all scraped on one day pairs its ids with items carrying that day and no `None` |
| IvLambda.LambdaHandler | iv_smile_project/lambda/iv_lambda.py:203-310 | the handler returns what `Handler` specifies |
| IdParsing.DateMatches | app/iv_smile_app_v3.py:294 | every match of `\d{4}-\d{2}-\d{2}` is ten characters of that pattern |
| IdParsing.DateMatchesFront | app/iv_smile_app_v3.py:294 | a date at the front is the first match |
| IdParsing.IsoTextPattern | app/iv_smile_app_v3.py:294 | the ISO text of a date matches the pattern |
| IdParsing.IdType | app/iv_smile_app_v3.py:298-303 | the type is `call` exactly when `#call#` occurs, `put` when `#put#` does and `#call#` does not, `futures` when only `#futures` does, and `''` when none does |
| IdParsing.SegmentInt | app/iv_smile_app_v3.py:308 | `int(float(p))` succeeds exactly when `p` reads as a finite number, and truncates it |
| IdParsing.LastIntIndex | app/iv_smile_app_v3.py:306-311 | the segment found is the last one that converts; no later segment does |
| IdParsing.ScanStrike | app/iv_smile_app_v3.py:306-311 | the reversed loop reports the strike of the last segment that converts |
| IdParsing.ParsedId | app/iv_smile_app_v3.py:292-317 | the dates found match the pattern, a second date only comes after a first, and the type is `IdType` |
| IdParsing.ParseaId | iv_smile_project/app/iv_smile_app_v2.py:336-361 | the method returns what `ParsedId` specifies |
| IdParsing.IdDates | app/iv_smile_app_v3.py:313-314 | the dates of `a#b#…` with ISO dates `a` and `b` are `a` and `b` |
| IdParsing.IdTypeOf | app/iv_smile_app_v3.py:298-303 | the type of `pre#call#k` is `call`, and that of `pre#put#k` is `put` when neither `pre` nor `k` holds the letter `c` |
| IdParsing.StrikeSegment | app/iv_smile_app_v3.py:308 | the strike segment `str(float(x))` converts back to `int(x)` |
| IdParsing.IdStrike | app/iv_smile_app_v3.py:305-311 | the strike of `a#b#type#str(float(x))` is `int(x)` |
| IdParsing.StrikeOfLast | app/iv_smile_app_v3.py:306-309 | a last segment that converts is the strike |
| IdParsing.ParseaIdRoundTrip | iv_smile_project/app/iv_smile_app_v2.py:336-361 | an id written as scrape date, expiry, type and float strike parses back into the two dates, the type and `int` of the strike |
| IdParsing.PatternIdRoundTrip | app/iv_smile_app_v3.py:292-317 | the same round trip for any two date-shaped segments |
| IdParsing.ParsedIdOfParts | app/iv_smile_app_v3.py:312-315 | an id made of two dates, a type and a strike gives back its dates and type |
| IdParsing.ParseaIdStoredStrike | app/iv_smile_app_v3.py:305-311 | an integral strike the ingestion stored as ten times its value comes back as that tenfold integer |
| IdParsing.IdsParsed | app/iv_smile_app_v3.py:323 | one parsed id per row, in order |
| IdParsing.FillStep | app/iv_smile_app_v3.py:325-326 | a column that is missing or entirely null is replaced by the parsed field; any other column is left as it is |
| IdParsing.FillAll | app/iv_smile_app_v3.py:324-326 | the back-fill keeps the number of rows |
| IdParsing.BackFilled | iv_smile_project/app/iv_smile_app_v2.py:363-372 | the back-fill keeps the number of rows |
| IdParsing.BackFill | app/iv_smile_app_v3.py:319-327 | the loop returns what `BackFilled` specifies |
| IdParsing.FillAllOther | app/iv_smile_app_v3.py:324-326 | filling other columns does not change whether a column needs filling, nor its values |
| IdParsing.BackFilledValues | iv_smile_project/app/iv_smile_app_v2.py:368-370 | after the back-fill of a table with an `id` column, each of the four columns holds the id's part where it needed filling; every other value is unchanged |
| IdParsing.FilledColumnSettled | app/iv_smile_app_v3.py:325 | after the back-fill of a non-empty table with an `id` column, none of the four columns needs filling |
| IdParsing.BackFilledIdempotent | iv_smile_project/app/iv_smile_app_v2.py:363-372 | a second back-fill changes nothing |
| Dashboard.TipoName | iv_smile_project/app/iv_smile_app.py:536-538 | the type is `call` exactly for `call`, `calls`, `c`, `put` exactly for `put`, `puts`, `p`, and the text itself otherwise |
| Dashboard.NormalizaTipo | app/iv_smile_app_v3.py:55-63 | a non-string comes back unchanged; a string comes back lower-cased, stripped and mapped to `call`/`put` |
| Dashboard.NormalizaTipoInsensitive | iv_smile_project/app/iv_smile_app.py:532-538 | case and surrounding blanks do not matter |
| Dashboard.NormalizaTipoIdempotent | iv_smile_project/app/iv_smile_app_v2.py:67-75 | normalising twice is normalising once |
| Dashboard.Rename | iv_smile_project/app/iv_smile_app.py:543 | `rename(columns={src: dst})` renames exactly the columns named `src` |
| Dashboard.RenameIfAbsent | iv_smile_project/app/iv_smile_app.py:542-543 | a guarded rename keeps the number of columns |
| Dashboard.NormalizaColumnasV1 | iv_smile_project/app/iv_smile_app.py:541-550 | the first version's renames keep the number of columns |
| Dashboard.NormalizaColumnasV1Renames | iv_smile_project/app/iv_smile_app.py:541-550 | each of the four aliases is renamed exactly when its target is absent (for `vencimiento`, when neither `date` nor `fecha` is present); every other column keeps its name |
| Dashboard.Lookup | app/iv_smile_app_v3.py:34-49 | the `elif` chain finds an entry for the key, and finds none only when no entry has it |
| Dashboard.TableTargets | app/iv_smile_app_v3.py:34-49 | every alias maps to a canonical name, and a canonical name that is also an alias maps to itself |
| Dashboard.Canonical | app/iv_smile_app_v3.py:33-49 | a column that is no alias keeps its name |
| Dashboard.CanonicalIdempotent | app/iv_smile_app_v3.py:33-50 | a canonical name is its own canonical name |
| Dashboard.Renamed | app/iv_smile_app_v3.py:50 | each column is renamed to its canonical name, one for one |
| Dashboard.Dedup | app/iv_smile_app_v3.py:52 | dropping duplicated columns leaves no duplicate and exactly the same names |
| Dashboard.DedupOrder | app/iv_smile_app_v3.py:52 | the columns kept appear in the order of their first occurrences |
| Dashboard.DedupNoDup | iv_smile_project/app/iv_smile_app_v2.py:64 | a list without duplicates is its own deduplication |
| Dashboard.NormalizedColumns | iv_smile_project/app/iv_smile_app_v2.py:42-65 | the result has no duplicate and holds exactly the canonical names of the columns |
| Dashboard.NormalizedColumnsIdempotent | app/iv_smile_app_v3.py:30-53 | normalising the columns twice changes nothing more |
| Dashboard.ApplyRenames | iv_smile_project/app/iv_smile_app_v2.py:62 | `rename(columns=renames)` renames exactly the columns in the dictionary |
| Dashboard.ApplyRenamesCanonical | iv_smile_project/app/iv_smile_app_v2.py:44-62 | the dictionary the loop builds renames every column to its canonical name |
| Dashboard.NormalizaColumnas | app/iv_smile_app_v3.py:30-53 | the method returns what `NormalizedColumns` specifies |
| Dashboard.NormalizaFecha | app/iv_smile_app_v3.py:65-70 | the library's answer is used when it has one; otherwise the first ten characters of `str(fecha)` |
| Dashboard.Insert | iv_smile_project/app/iv_smile_app.py:132 | adding a name to an increasing list keeps it increasing and adds exactly that name |
| Dashboard.SortedSet | iv_smile_project/app/iv_smile_app.py:132 | `sorted(set(xs))` is increasing and holds exactly the names of `xs` |
| Dashboard.SortedNoDup | iv_smile_project/app/iv_smile_app.py:132 | an increasing list holds no name twice |
| Dashboard.AtOrAfter | app/iv_smile_app_v3.py:132 | the cutoff filter keeps exactly the names at or after the cutoff, in order |
| Dashboard.Candidates | iv_smile_project/app/iv_smile_app.py:129 | the names kept are exactly the strings that are not blank |
| Dashboard.ScrapeDatesV1 | iv_smile_project/app/iv_smile_app.py:123-132 | the scrape dates offered are increasing, without duplicates, and exactly the non-blank strings at or after `2025-05-13` |
| Dashboard.ScrapeDatesV3 | app/iv_smile_app_v3.py:129-132 | the scrape dates offered are increasing, without duplicates, and exactly the given dates at or after `2025-05-15` |
| Dashboard.FirstIndex | iv_smile_project/app/iv_smile_app.py:137 | `list.index` finds the first position holding the name |
| Dashboard.DefaultIndexV1 | iv_smile_project/app/iv_smile_app.py:135-141 | the default is the first position of `2025-05-14` when offered, and the latest date otherwise |
| Dashboard.DefaultIndexV3 | app/iv_smile_app_v3.py:133-136 | the default is the first position of the preferred date when offered, and the first position otherwise |
| Dashboard.DateNorms | iv_smile_project/app/iv_smile_app.py:201 | one normalised expiry per row |
| Dashboard.BothSides | iv_smile_project/app/iv_smile_app.py:205-208 | an expiry is kept exactly when it has a call strike and a put strike, and the order is preserved |
| Dashboard.OfferedExpiries | iv_smile_project/app/iv_smile_app.py:201-209 | the expiries offered are increasing and are exactly those with at least one call strike and one put strike |
| Dashboard.ExpiriesWithBothSides | iv_smile_project/app/iv_smile_app.py:202-209 | the loop returns what `OfferedExpiries` specifies |

## Left out

- The Black-Scholes price, `brentq`, `norm.cdf` and `mibian` are not modelled. The root finder is a parameter (`Volatility.Solver`, which raises, returns `None` or returns a value, and `IvLambda.Solver`), so nothing is proved about the volatility values themselves.
- Floating point: numbers are exact decimals, and `float()` reads them exactly. Rounding of long inputs, `round(iv, 4)` and `days / 365` are inside the solver parameter.
- `float()` accepts plain numerals with an optional sign, digits and a point, plus `nan`, `inf` and `infinity` in any case. Exponents and underscores are not modelled.
- `str(float)` is written in plain notation with the shortest digits of an exact decimal, and `str(Decimal)` in plain notation with its own digits. Python's switch to exponent notation is not modelled: for very large or very small floats, and for a `Decimal` whose adjusted exponent is below -6 (`Decimal("0.0000001")` prints as `1E-7`).
- Strings are sequences of characters. `lower()`, `upper()` and `isdigit()` are restricted to ASCII, and `\d` matches ASCII digits only.
- HTTP requests, BeautifulSoup, `pandas.read_html` and the CSS selectors are not modelled. The page is given as its drop-down options (value and text) and its rows of cell texts, with `get_text(strip=True)` as `strip()` of the text.
- DynamoDB calls are not modelled: `scan`, its pagination, `put_item`, `batch_writer` and `get_item`. The scans are inputs and the writes are the sequences the methods return.
- The clock is a parameter: `datetime.now()`, `utcnow()` and `date.today()` become a given instant or date, and the scrape-date text becomes a given string.
- `pd.to_datetime` with `dayfirst=True` and the dashboards' `pd.to_datetime(...).strftime` are parameters (`LambdaIngest.DayFirst`, the `library` argument of `Dashboard.NormalizaFecha`), because pandas' date inference is not written down. Fixed formats are modelled as `strptime`.
- Pandas frames are lists of records. MultiIndex headers, duplicate column labels beyond `duplicated()` and dtype inference are not modelled. A whole column of `None` in an object column is read as missing.
- Streamlit widgets, plotly charts, CSV export and the dashboards' `st.*` messages are left out. Only the selection logic is modelled.
- `procesar_opciones_por_fechas` (iv_smile_project/lambda/iv_lambda.py:103-170) is not called by `lambda_handler` and is not part of this model.
- DynamoDB's rejection of NaN and infinite `Decimal` values is not modelled. `LambdaIngest.ItemFields` simply holds the `Decimal` that `Decimal(str(x))` gives.
- `decimal_default` of the scraper Lambda (iv_smile_project/lambda/scraper_lambda.py:13-16) is not modelled: its only caller serialises a message with no `Decimal` in it.
- `print` debugging output and the `json.dumps` of the response bodies are left out.
- MeffScraper.ParseFuturosLambda: a table whose column labels are tuples (MultiIndex headers) is treated like one with plain labels, because `read_html` tuple headers are not modelled.
- Dashboard.ScrapeDatesV3: takes the scrape dates as given; the `iv_df['iv'].notnull()` and `dropna()` filter is left to the caller, because the frame's rows are not modelled there.
- ExpiryCodes.LookupsAgree: its proof needs no work, but it records that the dashboard Lambda's retry on an unchanged code is harmless.
