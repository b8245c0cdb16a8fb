# k6 load-test utilities: metrics registry, CSV row selection, date and token text

The repository is a set of k6 load-test scripts and the helpers they share.
This project models three of those helpers in Dafny and proves what each one
promises.

- **The per-stage metrics registry** (`Thresholds`, `Thresholds.dfy`). When
  it is built for `n` stages, it creates these sinks:
  - one cross-stage `failed_request` Rate;
  - seven failure Counters per stage: a base counter named
    `y_failed_request_stage_{i}`, and one counter per category named
    `y_failed_request_stage_{i}_{CODE}`;
  - one iteration Counter, one duration Gauge and one request-duration Trend
    per stage;
  - one SQL Trend.

  Each sink except the single SQL Trend is kept in a name-keyed
  `map<string, Sink>` under the name the source gives it; the SQL Trend is a
  field of its own. Recording a request classifies its k6 error code, feeds
  the Rate, and on a failure adds one to the counter of that stage and
  category. The other methods touch one sink each: a stage-scoped one, or the
  SQL Trend. A stage that was never built has no sink, and the call fails.
- **CSV row selectors** (`CsvData.dfy`). The k6 execution context is given as
  parameters: the virtual-user id, the iteration counters, `MAX_VUS`, a block
  length and the random draw. Each selector turns these into a row index,
  checks the bounds where the source does, and reads the row. Reading outside
  the array gives `None`, the model of JavaScript's `undefined`. A thrown
  error gives `Failure`.
- **Date and token text** (`DateFormat.dfy`). These are:
  - the last digits of a clock reading;
  - the `YYYYMMDD` and `YYYY{sep}MM{sep}DD` dates;
  - the `YYYYMMDD` + `NNNN` + timestamp token.

  The calendar fields, the clock and the random number are parameters.

Supporting modules:

- `Wrappers.dfy` holds `Option` and `Result`.
- `Arith.dfy` holds powers of ten and division facts.
- `JsText.dfy` holds the JavaScript string operations the helpers use:
  - `String(n)` for integers, with `DecimalValue` to read digits back;
  - `padStart`;
  - `slice` with one argument.
- `Constants.dfy` holds the metric-name prefixes and the `TYPE_ERROR_CODES`
  table.

## Model

| member | source | states |
|---|---|---|
| Constants.TypeErrorCodeInjective | utils/constants.js:16-25 | the eight `TYPE_ERROR_CODES` values are pairwise distinct, so a category is determined by its metric-name suffix |
| Thresholds.Classify | utils/classes/Thresholds.class.js:54-66 | the result is TEXT iff the code is 0, TCP iff in 1100..1199, TLS iff in 1200..1299, HTTP4xx iff in 1400..1499, HTTP5xx iff in 1500..1599, GENERAL for every other code; DNS and HTTP2 never occur |
| Thresholds.ClassifyIsTableLookup | utils/classes/Thresholds.class.js:54-66 | the if/else chain equals a first-match lookup in the ordered table of inclusive code ranges |
| Thresholds.CodeRangesDisjoint | utils/classes/Thresholds.class.js:56-66 | no code lies in two ranges of the table, so the order of the checks does not change the category |
| Thresholds.ClassifyHasStageCounter | utils/classes/Thresholds.class.js:24-37 | every category the chain yields is one of the six categories a stage has a counter for |
| Thresholds.FailName | utils/classes/Thresholds.class.js:69-71 | no per-stage failure counter is named `failed_request`, so bumping a counter never touches the Rate |
| Thresholds.FailKeyInjective | utils/classes/Thresholds.class.js:23-30 | two failure-counter names are equal iff they have the same stage and the same slot (base or category) |
| Thresholds.StageKeyInjective | utils/classes/Thresholds.class.js:84 | `${prefix}${i}` names are equal iff the stage indices are |
| Thresholds.StageKeysMember | utils/classes/Thresholds.class.js:81-103 | a stage-scoped name is built iff its stage is in 0 .. n-1 |
| Thresholds.StageKeysCount | utils/classes/Thresholds.class.js:81-103 | n stages give exactly n distinct names (none for n <= 0) |
| Thresholds.FailRateKeysMember | utils/classes/Thresholds.class.js:16-38 | the `failRates` table has a counter for (stage, slot) iff the stage is in 0 .. n-1 and the slot is the base counter or one of TEXT, GENERAL, TCP, TLS, HTTP4xx and HTTP5xx |
| Thresholds.FailRateKeysCount | utils/classes/Thresholds.class.js:16-42 | the `failRates` table has exactly 1 + 7·n distinct names |
| Thresholds.StageOrDefault | utils/classes/Thresholds.class.js:46-49 | the stage is the looked-up index when the lookup returned one, and 0 when it threw |
| Thresholds.RateAdd | utils/classes/Thresholds.class.js:52 | adding a boolean to a Rate counts one more observation and one more true exactly when it is true |
| Thresholds.RecordOutcome | utils/classes/Thresholds.class.js:52-72 | the table keeps its names; the Rate gets the outcome; on a failure the selected counter, if present, goes up by one; every other sink is unchanged |
| Thresholds.Thresholds.constructor | utils/classes/Thresholds.class.js:7-14 | builds all four tables and the SQL Trend for `n` stages. Every sink starts empty. The sizes are 1 + 7·n failure sinks and n sinks in each per-stage table. The registry invariant holds |
| Thresholds.Thresholds.CreateRateByStages | utils/classes/Thresholds.class.js:16-43 | the loop yields a table whose names are exactly the Rate plus the seven counters of each stage 0 .. n-1. The Rate is at (0, 0), every counter is at 0, and the size is 1 + 7·n |
| Thresholds.Thresholds.CreateByStage | utils/classes/Thresholds.class.js:81-103 | the loop yields one sink per stage 0 .. n-1 named `${prefix}${i}`, all in the given initial state, n in all |
| Thresholds.Thresholds.HandleTypeErrorRequest | utils/classes/Thresholds.class.js:45-75 | the stage is the looked-up one, or 0 when the lookup threw. The Rate always gets `isError`, and on a failure exactly the (stage, category) counter goes up by one. The call fails iff it is a failure in a stage with no counters. The other tables are unchanged |
| Thresholds.Thresholds.HandleRequestDurationByStage | utils/classes/Thresholds.class.js:77-79 | appends the duration to the stage's trend and changes nothing else; fails, changing nothing, iff the stage is outside 0 .. n-1 |
| Thresholds.Thresholds.AddSqlReqDuration | utils/classes/Thresholds.class.js:105-111 | appends the duration to the SQL trend and changes nothing else |
| Thresholds.Thresholds.AddIterationByStage | utils/classes/Thresholds.class.js:113-115 | adds 1 to the stage's iteration counter only; fails, changing nothing, iff the stage is outside 0 .. n-1 |
| Thresholds.Thresholds.AddDurationByStage | utils/classes/Thresholds.class.js:117-119 | sets the stage's gauge to the given run duration (last write wins) and changes nothing else; fails, changing nothing, iff the stage is outside 0 .. n-1 |
| CsvData.ReadAt | utils/getDataFromCsvFile.js:62 | indexing gives the element iff the index is inside the array, `undefined` otherwise |
| CsvData.RandomIndex | utils/getDataFromCsvFile.js:61 | floor(draw · length) with a draw in [0, 1) is a valid index of a non-empty array, and 0 for an empty one |
| CsvData.GetRandomData | utils/getDataFromCsvFile.js:60-63 | a row of the file is returned iff the file is not empty |
| CsvData.GetSameDataByUser | utils/getDataFromCsvFile.js:80-83 | user `idInTest` gets row `idInTest - 1` when it exists, `undefined` otherwise |
| CsvData.FirstUserGetsFirstRow | utils/getDataFromCsvFile.js:76-82 | virtual user 1 reads row 0 |
| CsvData.SecuencialIndex | utils/getDataFromCsvFile.js:110 | for a user in 1 .. MAX_VUS, the index of iteration `iter` lies in the iteration's own round of MAX_VUS rows, from iter·MAX_VUS to iter·MAX_VUS + MAX_VUS - 1; SecuencialIndexDecodes and SecuencialIndexInjective state the rest |
| CsvData.SecuencialIndexExample | utils/getDataFromCsvFile.js:98-100 | user 2, iteration 3, `MAX_VUS` 10 gives index 31 |
| CsvData.SecuencialIndexDecodes | utils/getDataFromCsvFile.js:110 | for users 1 .. MAX_VUS the index is non-negative, its quotient by MAX_VUS is the iteration and its remainder plus one is the user |
| CsvData.SecuencialIndexInjective | utils/getDataFromCsvFile.js:85-110 | for users 1 .. MAX_VUS, two (user, iteration) pairs read the same row iff they are the same pair |
| CsvData.GetSecuencialData | utils/getDataFromCsvFile.js:106-119 | throws iff the index reaches the row count; otherwise returns the read at that index |
| CsvData.SecuencialDataInRange | utils/getDataFromCsvFile.js:110-118 | for a user in 1 .. MAX_VUS and a non-throwing index, the result is that row |
| CsvData.GetDataInOrder | utils/getDataFromCsvFile.js:134-144 | throws iff the scenario iteration reaches the row count; otherwise returns the read at that index |
| CsvData.DataInOrderExample | utils/getDataFromCsvFile.js:129-131 | iteration 2 over a, b, c, d gives c |
| CsvData.RandomBlockIndex | utils/getDataFromCsvFile.js:155 | a draw in 0 .. blockLong-1 puts the index in the user's block `(vu-1)·blockLong` .. `(vu-1)·blockLong + blockLong - 1` |
| CsvData.RandomBlockIndexInBlock | utils/getDataFromCsvFile.js:155 | a draw in 0 .. blockLong-1 lands in the user's block |
| CsvData.BlocksDisjoint | utils/getDataFromCsvFile.js:155 | an index in two users' blocks belongs to one user only |
| CsvData.ReadBlockRow | utils/getDataFromCsvFile.js:158-165 | RangeError with the index and the length iff the index is negative or past the last row; otherwise the row together with the same index |
| CsvData.GetRandomDataByBlock | utils/getDataFromCsvFile.js:154-166 | RangeError iff the random block index is outside the file; otherwise that row and that index |
| CsvData.JsRem | utils/getDataFromCsvFile.js:177 | JavaScript `%`: the remainder has the dividend's sign, lies below the divisor's magnitude, and completes the truncated division |
| CsvData.SequentialBlockIndex | utils/getDataFromCsvFile.js:177 | `(vu-1)·blockLong + iter % blockLong` with JavaScript's `%`; for a positive block length and a non-negative iteration the index lies in the user's block; SequentialBlockIndexPeriodic states its period |
| CsvData.SequentialBlockIndexInBlock | utils/getDataFromCsvFile.js:177 | in non-negative iterations the index stays in the user's block |
| CsvData.SequentialBlockIndexPeriodic | utils/getDataFromCsvFile.js:177 | the index repeats every blockLong iterations and walks the block in order during the first blockLong iterations |
| CsvData.GetSequentialDataByBlock | utils/getDataFromCsvFile.js:176-188 | RangeError iff the sequential block index is outside the file; otherwise that row and that index |
| JsText.IntToString | utils/date_format.js:67 | `toString()` of an integer: at least one character; all digits for a non-negative integer; a minus sign followed by digits for a negative one |
| JsText.DecimalValueOfNatToString | utils/date_format.js:44 | the decimal text of a number reads back as the number |
| JsText.NatToStringInjective | utils/classes/Thresholds.class.js:23 | distinct numbers have distinct decimal texts |
| JsText.PadStart | utils/date_format.js:45-46 | `padStart` keeps the string as its suffix, fills the front with the filler and reaches the target length |
| JsText.SliceFrom | utils/date_format.js:70 | one-argument `slice` returns a suffix; a negative start keeps at most that many characters from the end, a non-negative one drops that many |
| JsText.SuffixValue | utils/date_format.js:70 | the last k digits of a number's text denote the number modulo 10^k |
| DateFormat.GetTimestamp | utils/date_format.js:66-71 | `undefined` iff `last` > 13. For 1 .. 13 the result is the last `last` characters, and for 0 it is the whole text (`slice(-0)`). A negative `last` drops that many leading characters |
| DateFormat.TimestampLastDigits | utils/date_format.js:70 | for a clock reading the result has min(last, digits) characters, all digits, denoting the reading modulo 10^last |
| DateFormat.TimestampExamples | utils/date_format.js:58-64 | 1234567890 with 6 gives 567890, and with 14 gives `undefined` |
| DateFormat.TwoDigits | utils/date_format.js:46 | `toString().padStart(2, '0')`: two characters, or the text's own length when it is longer; all digits for a non-negative field; TwoDigitsOfField states the value read back |
| DateFormat.MonthText | utils/date_format.js:45 | the month index plus one, at least two characters, all digits from index -1 up; MonthTextExamples and TodayDateReadsBack state the printed value |
| DateFormat.GetTodayDate | utils/date_format.js:41-49 | the date's length is the year text, two-or-more month and day characters and, with a separator, two copies of it; TodayDateLayout, TodayDateReadsBack and TodayDateWithSeparator state its layout and values |
| DateFormat.TwoDigitsOfField | utils/date_format.js:45-46 | every field 0 .. 99 prints as exactly two digits that read back as the field |
| DateFormat.MonthTextExamples | utils/date_format.js:45 | month index 9 prints 10 and index 0 prints 01 |
| DateFormat.TodayDateLayout | utils/date_format.js:44-48 | with no separator, a four-digit-year date is eight digits: the year text, the 2-digit month, the 2-digit day |
| DateFormat.TodayDateReadsBack | utils/date_format.js:44-48 | the eight digits read back as the year, the month index plus one and the day |
| DateFormat.TodayDateWithSeparator | utils/date_format.js:48 | with a separator the date is the same year, month and day fields joined by it |
| DateFormat.TodayDateExamples | utils/date_format.js:33-39 | 4 October 2024 gives 20241004, and 2024-10-04 with `-` |
| DateFormat.GetTokenBancs | utils/date_format.js:18-24 | the token's length is that of the date text, the random number's text and the timestamp text together; TokenLayout and TokenReadsBack state its layout and values |
| DateFormat.TokenLayout | utils/date_format.js:18-24 | the token is all digits: the 8-digit date, then the 4 digits of the random number, then the timestamp text |
| DateFormat.TokenReadsBack | utils/date_format.js:10-23 | the token's fields read back as the date, the random number and the clock reading |
| DateFormat.TokenExample | utils/date_format.js:14-16 | 4 October 2024, 1234 and 1696412345678 give 2024100412341696412345678 |

## Left out

- `readCsvFile` is not modelled. It opens a file, parses it with papaparse and
  wraps the rows in a `SharedArray`, which is I/O and foreign library code. The
  selectors take the rows as a `seq<T>`.
- The k6 runtime is not modelled: `k6/execution`, `getCurrentStageIndex`,
  `currentTestRunDuration`, and how Counter, Rate, Gauge and Trend aggregate
  and export. A sink is the abstract state it accumulates. The context values
  are method parameters, and a stage lookup that throws is `None`.
- Random numbers and clocks are parameters, not models:
  - `Math.random()` is the fraction `num / den` in [0, 1);
  - `randomIntBetween` is the draw it returns;
  - `Date.now()` and the fields of `new Date()` are integers.
- Durations and other metric values are integers, not floating-point numbers.
- `MAX_VUS` is an integer, not the environment string JavaScript coerces. An
  unset `MAX_VUS` would make the index NaN, and that case is not modelled.
- Concurrency across virtual users is not modelled: there is one sequential
  registry instance.
- Console and file logging is not modelled: the commented-out `console.log`
  and the logging helpers of the repository.
- CsvData.SequentialBlockIndex: requires a non-zero block length, because
  `x % 0` is NaN in JavaScript and the model has no NaN. With a block length
  of 0 the source computes a NaN index; `NaN < 0` and `NaN >= length` are both
  false, so it does not throw the documented RangeError and returns
  `{data: undefined, index: NaN}`. That quirk of the source is not modelled.
- CsvData.GetSequentialDataByBlock: requires a non-zero block length, for the
  same reason; the NaN result described above is not modelled.
- Thresholds.Thresholds.HandleTypeErrorRequest: takes the response's
  `error_code` as an integer. A missing code (`undefined`) classifies as
  GENERAL in the source; the model does not represent it.
- Thresholds.Thresholds.HandleTypeErrorRequest,
  Thresholds.Thresholds.HandleRequestDurationByStage,
  Thresholds.Thresholds.AddIterationByStage and
  Thresholds.Thresholds.AddDurationByStage: where the source throws a
  TypeError on a missing sink, these return `ok == false`. The failure path is
  modelled as a result rather than an exception. Everything changed before the
  throw is kept, which is only the Rate in `HandleTypeErrorRequest`.
- Thresholds.Classify: follows the ranges as the code writes them. k6's own
  table puts DNS at 1100-1199 and TCP at 1200-1299; the code never yields DNS
  or HTTP2.
- Thresholds.Thresholds.constructor: accepts any integer stage count. With a
  count of 0 or less, the loops do not run and only the Rate and the SQL Trend
  exist. Nothing in the code rejects such counts.
- DateFormat.GetTimestamp: takes an integer timestamp and an integer `last`.
  The source also accepts a timestamp given as a string, and a non-integer
  `last`.
- DateFormat.GetTodayDate: a separator of `null` compares equal to
  `undefined` in the source. The model's `None` stands for both.
- JsText.IntToString: renders every integer in plain decimal. JavaScript's
  number-to-text conversion switches to exponent notation from 1e21 upward,
  and the source's numbers are doubles; no clock reading, date field or row
  index of these helpers comes near that, so the model does not represent it.
