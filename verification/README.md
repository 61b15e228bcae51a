# Calculadora de Datas — a Dafny model of its date-arithmetic core

`calculadorampma.py` is a Streamlit page that counts the days between two
dates ("de data a data", both ends included), adds a day count to a start
date, or subtracts a day count from an end date. Each completed calculation
is shown with the weekday in Portuguese, offered for copying to the
clipboard, and logged in a session history that can be cleared.

This project models the logic under the page:

- `calendar.dfy` (module `Calendar`): the proleptic Gregorian calendar behind
  Python's `date`/`timedelta`. A date is a (year, month, day) triple with
  leap years and month lengths enforced and the year in 1..9999. `ToOrdinal`
  numbers days as `date.toordinal` does (0001-01-01 is day 1) and
  `FromOrdinal` is its inverse. Addition, subtraction, difference and
  `weekday()` are defined through the ordinal. Comparison `Before` is
  lexicographic on (year, month, day), as in Python, and
  `BeforeIffOrdinalLess` shows that it agrees with ordinal order. An
  independent successor function `NextDay` on triples checks them.
- `decimal.dfy` (module `Decimal`): zero-padded digit fields (`%d`, `%m`,
  `%Y`) and `str(n)` for the day counts in f-strings. Each comes with its
  decimal value, so the text reads back as the number.
- `formatting.dfy` (module `Formatting`): `WEEKDAYS_PT`,
  `strftime('%d/%m/%Y')` and `formatar_data`.
- `escaping.dfy` (module `Escaping`): the four chained `str.replace` calls
  of `botao_copiar`. The model also gives a reading of their output as a
  JavaScript template literal.
- `history.dfy` (module `History`): `registrar_calculo` and the "Limpar
  histórico" button. The history is a sequence passed in and returned.
- `calculator.dfy` (module `Calculator`): the three options, their summary
  texts, and one run of the page over an explicit session value (history
  and last result).
- `wrappers.dfy` (module `Wrappers`): `Option` for Python's `None`, and
  `Result` for the refused option 1.

The page computes only the inclusive day count. It has no exclusive count,
no breakdown into years, months and days, and no parsing of typed dates:
dates arrive from `st.date_input` widgets as date values.

## Model

| member | source | states |
|---|---|---|
| Calendar.ToOrdinal | calculadorampma.py:228 | every valid date has a day number in 1..3652059, Python's date range |
| Calendar.FromOrdinal | calculadorampma.py:228 | every day number in Python's range is the ordinal of a valid date |
| Calendar.FromToOrdinal | calculadorampma.py:228 | converting a date to its ordinal and back gives the date, so dates and ordinals are in bijection |
| Calendar.OrdinalInjective | calculadorampma.py:173 | two valid dates are equal exactly when their ordinals are |
| Calendar.Before | calculadorampma.py:173 | `data_final < data_inicial` is Python's lexicographic order on (year, month, day) |
| Calendar.BeforeTrichotomy | calculadorampma.py:173 | of two valid dates exactly one comes first unless they are equal, so `<` refuses reversed dates and accepts equal ones |
| Calendar.BeforeIffOrdinalLess | calculadorampma.py:173 | Python's date `<` (lexicographic on year, month, day) holds exactly when the first date's ordinal is smaller |
| Calendar.AddDays | calculadorampma.py:228 | `d + timedelta(days=n)` is a valid date exactly n days after d |
| Calendar.SubtractDays | calculadorampma.py:278 | `d - timedelta(days=n)` is a valid date exactly n days before d |
| Calendar.DaysBetween | calculadorampma.py:177 | `(a - b).days` is the count that, added to b, gives a; it is negative exactly when a is before b and zero exactly when a equals b |
| Calendar.Weekday | calculadorampma.py:30 | `weekday()` lies in 0..6 |
| Calendar.NextDay | calculadorampma.py:228 | the day after a date, by rolling day, month and year, is a valid later date |
| Calendar.NextDayOrdinal | calculadorampma.py:228 | the successor on triples moves the ordinal by exactly one |
| Calendar.AddOneIsNextDay | calculadorampma.py:228 | adding one day gives the next calendar day |
| Calendar.AddSuccessor | calculadorampma.py:228 | adding n + 1 days gives the day after adding n days |
| Calendar.AddCompose | calculadorampma.py:228 | adding a days and then b days equals adding a + b days |
| Calendar.AddZero | calculadorampma.py:228 | adding zero days returns the same date |
| Calendar.AddSubtractInverse | calculadorampma.py:228 | subtracting n days undoes adding n days |
| Calendar.SubtractAddInverse | calculadorampma.py:278 | adding n days undoes subtracting n days |
| Calendar.AddMonotone | calculadorampma.py:228 | adding a count never moves a date back exactly when the count is non-negative, and moves it forward exactly when the count is positive |
| Calendar.DaysBetweenAdd | calculadorampma.py:177 | the difference between d + n and d is n |
| Calendar.FirstDayIsMonday | calculadorampma.py:30 | 0001-01-01 has weekday 0, Monday |
| Calendar.WeekdayOfNextDay | calculadorampma.py:30 | the weekday advances by one, cyclically, from each day to the next |
| Calendar.WeekdayPeriodic | calculadorampma.py:30 | moving by whole weeks keeps the weekday |
| Decimal.ZeroPad | calculadorampma.py:31 | a padded field has exactly the requested width, only digits, and reads back as the number |
| Decimal.NatToString | calculadorampma.py:191 | `str(n)` is a non-empty digit string without leading zero that reads back as n |
| Formatting.FormatDate | calculadorampma.py:31 | `strftime('%d/%m/%Y')` is 10 characters: digits with slashes at positions 2 and 5, and the three fields read back as day, month and year |
| Formatting.FormatDateInjective | calculadorampma.py:31 | two dates render the same exactly when they are equal |
| Formatting.FormatWithWeekday | calculadorampma.py:28-31 | `formatar_data` is the `DD/MM/YYYY` text, then ` (`, then the table's name for the date's weekday, then `)`, with no line break |
| Formatting.FormatWithWeekdayInjective | calculadorampma.py:28-31 | the rendering with the weekday also identifies the date |
| Formatting.WeekdayNamesDistinct | calculadorampma.py:17-25 | the seven weekday names are pairwise distinct |
| Formatting.NextDayName | calculadorampma.py:17-30 | consecutive days show consecutive names from the Monday-first table |
| Formatting.NewYear2025Example | calculadorampma.py:29 | 2025-01-01 renders as `01/01/2025 (quarta-feira)` |
| Formatting.NewYear2025IsWednesday | calculadorampma.py:29-30 | 2025-01-01 has weekday 2 |
| Escaping.ReplaceChar | calculadorampma.py:69-72 | after replacing a character, every output character comes from the input (other than the replaced one) or from the replacement, and every other input character survives |
| Escaping.ReplaceChainIsEscapeEach | calculadorampma.py:68-73 | the four chained replacements, in the source's order, equal escaping each character once, so nothing is escaped twice |
| Escaping.SafeText | calculadorampma.py:68-73 | `safe_text` turns each backslash into `\\`, each backtick into `` \` ``, each newline into `\n` and drops each carriage return, handling every input character exactly once |
| Escaping.SafeTextWellEscaped | calculadorampma.py:68-73 | the escaped text consists only of plain characters and the escapes `\\`, `` \` `` and `\n` |
| Escaping.WellEscapedShape | calculadorampma.py:68-73 | well-escaped text holds no newline or carriage return, and every backtick in it follows a backslash |
| Escaping.UnescapeSafeText | calculadorampma.py:68-77 | reading the escaped text as a template literal gives the input without its carriage returns |
| Escaping.RemoveCR | calculadorampma.py:72 | dropping carriage returns leaves no carriage return and keeps every other character |
| Escaping.RemoveCRWithoutCR | calculadorampma.py:72 | text without carriage returns is unchanged by dropping them |
| Escaping.SafeTextReadBack | calculadorampma.py:68-77 | the escaped text is well formed and reads back as the input without carriage returns, which is the input itself when it holds none |
| Escaping.CopyPayload | calculadorampma.py:62-77 | `botao_copiar` renders nothing exactly for empty text; otherwise its payload is well escaped and reads back as the text without carriage returns |
| History.DateCell | calculadorampma.py:54-55 | a date column is empty exactly for `None`, and otherwise is the `DD/MM/YYYY` text |
| History.DateCellInjective | calculadorampma.py:54-55 | a date column determines the optional date it was written from |
| History.CountCellOf | calculadorampma.py:56 | the count column is blank exactly for `None`, and a count of 0 is kept |
| History.Register | calculadorampma.py:43-59 | `registrar_calculo` appends exactly one row, keeps every earlier row, and fills the new row from its arguments |
| History.Clear | calculadorampma.py:321 | clearing leaves an empty history |
| History.ClearIdempotent | calculadorampma.py:320-321 | clearing twice equals clearing once |
| History.RegisterThenClear | calculadorampma.py:320-321 | a clear after a registration leaves nothing |
| Calculator.InclusiveCount | calculadorampma.py:173-177 | option 1 is refused exactly when the end date precedes the start date; otherwise the count is at least 1, and the start date plus count − 1 days is the end date |
| Calculator.EndDate | calculadorampma.py:220-228 | option 2's end date is not before the start date and lies exactly n days after it |
| Calculator.StartDate | calculadorampma.py:270-278 | option 3's start date is not after the end date, and adding n days to it gives the end date |
| Calculator.JoinLines | calculadorampma.py:187-192 | joining lines that hold no carriage return gives a text without carriage return |
| Calculator.SplitLines | calculadorampma.py:187-192 | cutting a text at its newlines gives at least one piece, and no piece holds a newline |
| Calculator.SplitJoin | calculadorampma.py:187-192 | splitting the newline-joined text of one or more newline-free lines gives back exactly those lines |
| Calculator.JoinSplit | calculadorampma.py:187-192 | joining the pieces of any split text gives back the text |
| Calculator.Summary | calculadorampma.py:187-192 | four single-line texts joined as a summary hold no carriage return and split back into the same four lines |
| Calculator.DifferenceText | calculadorampma.py:187-192 | option 1's summary is exactly four lines: `Cálculo: Diferença entre datas (de data a data)`, `Data inicial: ` and `Data final: ` with the dates as `formatar_data` renders them, and `Total de dias (incluindo as duas datas): ` with the count; it holds no carriage return |
| Calculator.EndDateText | calculadorampma.py:237-242 | option 2's summary is exactly four lines: `Cálculo: Data final (data inicial + dias)`, the start date, `Dias adicionados: ` with the count, and the end date; it holds no carriage return |
| Calculator.StartDateText | calculadorampma.py:287-292 | option 3's summary is exactly four lines: `Cálculo: Data inicial (data final - dias)`, the end date, `Dias subtraídos: ` with the count, and the start date; it holds no carriage return |
| Calculator.DifferenceCalculation | calculadorampma.py:173-202 | option 1 is refused exactly when the dates are reversed; otherwise it keeps both dates, its count is one more than their difference, its summary is option 1's four lines, the history type is `Diferença entre datas (de data a data)` and the history summary is `N dia(s) de data a data`, and its copy payload reads back as the summary |
| Calculator.EndCalculation | calculadorampma.py:220-252 | option 2 keeps the start date and count, its end date lies the count's days later and not before the start, its summary is option 2's four lines, the history type is `Data final (inicial + dias)` and the history summary is `Final: DD/MM/YYYY` of the end date |
| Calculator.StartCalculation | calculadorampma.py:270-302 | option 3 keeps the end date and count, adding the count to its start date gives the end date, its summary is option 3's four lines, the history type is `Data inicial (final - dias)` and the history summary is `Inicial: DD/MM/YYYY` of the start date |
| Calculator.Calculate | calculadorampma.py:153-302 | only option 1 with reversed dates is refused; every completed calculation has start ≤ end, its copy payload reads back as its summary, and it is the outcome of the option requested with the requested inputs |
| Calculator.Submit | calculadorampma.py:193-202 | a refused request leaves the session unchanged; a completed one sets the last result to its summary and appends exactly one history row holding its type, both dates as `DD/MM/YYYY`, the count and its short summary, keeping every earlier row |
| Calculator.FirstRun | calculadorampma.py:36-59 | in a fresh session a request leaves one history row exactly when it completes, and a refused one leaves the session fresh |
| Calculator.ClearHistory | calculadorampma.py:320-322 | clearing empties the history and keeps the last result |
| Calculator.SameDayCountsOne | calculadorampma.py:177 | the same date as start and end counts 1 day |
| Calculator.StartUndoesEnd | calculadorampma.py:228-278 | option 3 applied to option 2's result with the same count gives back the start date |
| Calculator.EndUndoesStart | calculadorampma.py:228-278 | option 2 applied to option 3's result with the same count gives back the end date |
| Calculator.CountOfEndDate | calculadorampma.py:177-228 | option 1 from a start date to option 2's end date for n days counts n + 1 |
| Calculator.DefaultDatesNineDaysApart | calculadorampma.py:163-168 | the default dates 2025-01-01 and 2025-01-10 lie nine days apart |
| Calculator.DefaultDifference | calculadorampma.py:150-177 | 01/01/2025 to 10/01/2025 counts 10 days |
| Calculator.DefaultEndDate | calculadorampma.py:215-228 | 01/01/2025 plus 9 days is 10/01/2025 |
| Calculator.DefaultStartDate | calculadorampma.py:265-278 | 10/01/2025 minus 9 days is 01/01/2025 |
| Calculator.RefusalKeepsSession | calculadorampma.py:173-174 | option 1 with reversed dates leaves history and last result unchanged |
| Calculator.ClearHistoryIdempotent | calculadorampma.py:320-321 | clearing the session's history twice equals clearing it once |

## Left out

- Streamlit rendering: page configuration, sidebar, headers, `st.markdown`,
  `st.success` and `st.error` messages, `components.html` and `st.stop`.
  These are presentation. The model keeps only the values they display.
- The radio button and its dispatch by the label's first character. The
  model uses a tagged `Calculator.Request` instead.
- `st.session_state` as a global. It is an explicit `Calculator.Session`
  value, passed in and returned.
- The pandas `DataFrame`, the CSV and Excel export through `BytesIO`, and
  the download buttons. These are foreign library I/O.
- Calendar.AddDays: Python raises `OverflowError` when a result falls outside
  years 1..9999. The model requires the result to be in range instead
  (`AddInRange`, `SubtractInRange`, `Calculator.Admissible`), so that
  error path is not modelled.
- Formatting.FormatDate: always pads the year to four digits. Some C
  libraries print `%Y` without padding for years below 1000.
- Escaping.Unescape: reads the payload only as a JavaScript template
  literal, through the three escapes the chain writes. The source escapes
  nothing else, and the payload sits inside the double-quoted `onclick`
  attribute of an HTML button (calculadorampma.py:75-77). So the read-back
  that `Escaping.CopyPayload` and `Calculator.CompletedWell` promise holds
  only for text without these characters:
  - `${`, which JavaScript would read as the start of a substitution;
  - `"`, which would end the HTML attribute;
  - `&`, which would start an HTML character reference that the browser
    decodes before JavaScript sees the text.

  The summaries the calculator builds contain none of these, but this
  model does not prove that.
- The widgets' typed-text input and calendar picking. Dates arrive as
  already-valid values, and day counts as non-negative integers (the
  number input's `min_value=0`).
