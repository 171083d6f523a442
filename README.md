# Dam occupancy scraper — a Dafny model

The scraper reads the dam occupancy pages that Turkish city water
administrations publish. Each page has a table. Every row of the table body
describes one reservoir:

- its name in the first cell, sometimes followed by remarks after a `-->` marker;
- its capacity in the second cell, written with `.` as the thousands separator ("1.234.567");
- its fill percentage in the third cell.

A summary row whose first cell reads `TOPLAM` ("total") closes the table
and is skipped.

`get_data` turns one page into a list of reservoir records. `get_all_cities`
does that for each configured city, in order. It returns the cities with
the time of the run. Any exception along the way aborts the whole run:

- a short row;
- a capacity `int()` refuses;
- a percentage `float()` refuses;
- a page without a table body.

No partial result is returned.

The model has these modules:

- `PyStr` (pystr.dfy) models the Python string operations the parser uses: `str.strip()` with Python's whitespace set, `str.split(sep)[0]` and `str.replace(c, '')`. Stripping is defined once, over a choice of two whitespace sets: the one `str.isspace()` accepts, and the narrower one `int()` skips. The second leaves out the ASCII separators U+001C to U+001F.
- `PyInt` (pyint.dfy) models base-10 `int()`. It accepts exactly this shape:
  - whitespace from `int()`'s own set, optionally, around the literal;
  - an optional sign;
  - digits with single underscores between them.

  It proves that printing and parsing round-trip, with or without whitespace around the number.
- `FailFast` (failfast.dfy) models the walk both loops share. It goes from left to right. Each element is skipped, kept as a value, or fails, and the walk stops at the first failure. It has lemmas on success, on the first failure, on order and on the kept positions.
- `TableParser` (table_parser.dfy) models `get_data`:
  - the per-cell extraction of the name and the capacity;
  - the per-row step, which raises the same exception Python raises first;
  - the method `GetData`, with the row loop, proved equal to the function `Scrape`.
- `Aggregator` (aggregator.dfy) models `get_all_cities`. The method `GetAllCities` has the city loop and is proved equal to `AllCities`.
- `Scenarios` (scenarios.dfy) holds worked examples: concrete cells, rows and tables run through the model.

The HTTP request, the HTML parser, `float()` and the clock are parameters:

- `fetch` maps a URL to the parsed page. A failed request is `None`. A page is reduced to the texts of its first `tbody` element's `td` cells, row by row, and `None` stands for a page without a `tbody`. `fetch` is one fixed function, so the same URL always gives the same page within a run.
- `parseFloat` returns `None` where `float()` raises.
- `now` is the clock reading that dates a successful run. The caller supplies it.

A cell reading "-->DamName" yields the empty name, because
`split('-->')[0]` keeps only the text before the first marker.
`TableParser.CellNameMarker` and `Scenarios.NameAfterLeadingMarker` state this.

## Model

| member | source | states |
|---|---|---|
| PyStr.Strip | deneme.py:26 | `str.strip()`: stripping by the `str.isspace()` set. Its contract is stated by the `StripBy` rows below. |
| PyStr.StripBy | deneme.py:26 | The result is the slice of the input that starts where the leading whitespace ends. |
| PyStr.StripByKeepsStripped | deneme.py:26 | An input with no whitespace at either end is returned unchanged. |
| PyStr.StripByStripped | deneme.py:26 | The result has no whitespace at either end. |
| PyStr.StripByCutsLeading | deneme.py:26 | Everything cut off before the result is whitespace. |
| PyStr.StripByCutsTrailing | deneme.py:26 | Everything cut off after the result is whitespace. |
| PyStr.StripByIdempotent | deneme.py:26 | Stripping twice is stripping once. |
| PyStr.StripByPadding | deneme.py:26 | Whitespace padding around a text with no whitespace at either end is exactly what stripping removes. |
| PyStr.SplitHead | deneme.py:29 | The result is the prefix of the text before the first occurrence of the separator. It does not contain the separator, and no occurrence starts earlier. If the separator is absent, the result is the whole text. |
| PyStr.StripKeepsAbsence | deneme.py:29 | Stripping a text that does not contain a separator cannot produce one. |
| PyStr.RemoveChar | deneme.py:30 | Deleting a character never lengthens the text. The lemmas below state the rest. |
| PyStr.RemoveCharAbsent | deneme.py:30 | A text without the character is left as it is. |
| PyStr.RemoveCharMembers | deneme.py:30 | After deleting `c`, a character occurs exactly when it occurred before and is not `c`. So no `c` is left. |
| PyStr.RemoveCharAppend | deneme.py:30 | Deleting a character distributes over concatenation. |
| PyInt.ParseInt | deneme.py:30 | `int()` accepts a text exactly when, once stripped of `int()`'s own whitespace, it is an optional sign followed by digits with single underscores between them. Only a leading `-` gives a negative number, and an accepted text holds a digit. So U+001C to U+001F around a number are refused. |
| PyInt.ParseIntStrip | deneme.py:30 | `int()` reads only the text between the whitespace it skips. |
| PyInt.LiteralSkipsUnderscores | deneme.py:30 | Underscores between digits add nothing to a literal's value. |
| PyInt.ParsePadded | deneme.py:30 | Every integer printed in decimal parses back to itself, with any whitespace of `int()`'s set around it. |
| PyInt.Decimal | deneme.py:30 | The decimal spelling of a natural number is a non-empty run of digits with no leading zero, and it denotes that number. |
| PyInt.ParseDigits | deneme.py:30 | A non-empty string of digits, leading zeros included, parses to the number its digits denote. |
| PyInt.ParseFormat | deneme.py:30 | Every integer printed in decimal parses back to itself. |
| TableParser.IsTotalRow | deneme.py:26 | The total row is the one whose stripped first cell is `TOPLAM`. `ParseRowCases` states its use. |
| TableParser.CellName | deneme.py:29 | The name in a first cell. Its contract is stated by `CellNameInCell`, `CellNameShape` and `CellNameMarker`. |
| TableParser.CellNameInCell | deneme.py:29 | A reservoir's name is a piece of its stripped cell text. |
| TableParser.CellNameShape | deneme.py:29 | A name has no whitespace at either end and never contains the `-->` marker. |
| TableParser.CellNameMarker | deneme.py:29 | Without a marker, the name is the whole stripped cell text. With the marker at the start of the stripped text, the name is empty. |
| TableParser.Capacity | deneme.py:30 | `int()` of the second cell with its dots deleted. Its contract is stated by `CapacityOfDigitsAndDots`, `CapacityOfPaddedCell` and `CapacityOfGrouped`. |
| TableParser.GroupThousands | deneme.py:30 | Writing a number with a `.` between groups of three digits is undone by deleting the dots. |
| TableParser.CapacityOfDigitsAndDots | deneme.py:30 | A capacity cell of digits and dots with at least one digit yields the value of its digits, which is never negative. |
| TableParser.CapacityOfPaddedCell | deneme.py:30 | Whitespace around a capacity cell of digits and dots is skipped: the padded cell reads as the bare one. |
| TableParser.CapacityOfGrouped | deneme.py:30 | Every natural number written with thousands separators reads back as itself. |
| TableParser.ParseRow | deneme.py:25-33 | One row's contribution: skipped, a record, or the exception Python raises first. Its contract is stated by `ParseRowCases`. |
| TableParser.ParseRowCases | deneme.py:25-33 | A row is skipped exactly when it is the total row, even a lone `TOPLAM` cell. An empty row raises IndexError on its first cell, and any other short row fails. A capacity `int()` refuses raises the int error on the dot-free text. Otherwise a row gives a record exactly when its percentage parses, and the record is the name, capacity and percentage of its own cells. |
| TableParser.ParseTableBody | deneme.py:24-34 | The loop over a table body's rows, as a fail-fast walk. Its contract is stated by `ParseTableBodyRecords`, `ParseTableBodyFails` and `FirstBadRowDecides`. |
| TableParser.ParseTableBodyRecords | deneme.py:24-34 | A successful parse has one record per non-total row. The records are in row order, and each is the record of its own row. So there are never more records than rows. |
| TableParser.ParseTableBodyFails | deneme.py:24-34 | A parse fails if and only if some row fails. |
| TableParser.FirstBadRowDecides | deneme.py:24-34 | The exception of the first failing row is the exception of the whole parse. |
| TableParser.ShortRowAborts | deneme.py:25-29 | A non-total row with fewer than three cells, an empty row included, makes the whole parse fail. |
| TableParser.BadCapacityAborts | deneme.py:30 | A capacity `int()` refuses makes the whole parse fail; the row is not dropped. |
| TableParser.OnlyTotalRows | deneme.py:24-27 | A body of total rows only, or an empty body, parses to no records. |
| TableParser.Scrape | deneme.py:20-34 | `get_data` as a function of the page. Its contract is stated by `ScrapeErrors` and the `ParseTableBody` rows. `GetData` is proved equal to it. |
| TableParser.ScrapeErrors | deneme.py:20-22 | A failed request and a page without a table body are errors, never an empty list. |
| TableParser.GetData | deneme.py:8-34 | The row loop returns the function `Scrape` of the page: the kept records in order, or the first exception. |
| FailFast.Collect | deneme.py:24-34 | The shared fail-fast walk. A successful walk never has more values than elements. The `Collect` lemmas below state the rest. |
| FailFast.KeptIndices | deneme.py:24-27 | The kept positions are in range, strictly increasing, and include every kept element. |
| FailFast.KeptIndicesAgree | deneme.py:26-27 | Two steps that keep the same elements keep the same positions. |
| FailFast.CollectOkIff | deneme.py:24-34 | A walk succeeds if and only if no element fails. |
| FailFast.CollectFirstFailure | deneme.py:24-34 | A walk reports the error of its first failing element. |
| FailFast.CollectNext | deneme.py:24-33 | For one more element after a successful prefix: a failure is the walk's result, a skip changes nothing, and a kept value is appended. |
| FailFast.CollectKept | deneme.py:24-34 | A successful walk returns one value per kept position, in order. |
| FailFast.CollectAllKept | deneme.py:39-44 | When every element is kept, the walk maps the input element by element. |
| Aggregator.CityStep | deneme.py:40-44 | One city's entry, or its scrape's exception; no city is skipped. `AllCitiesEntries` and `FirstFailingCityDecides` state its use. |
| Aggregator.AllCities | deneme.py:37-48 | `get_all_cities` as a function. Its contract is stated by `AllCitiesOkIff`, `AllCitiesEntries` and `FirstFailingCityDecides`. |
| Aggregator.GetAllCities | deneme.py:37-48 | The city loop returns the function `AllCities`: a snapshot dated `now`, or the first city's exception. |
| Aggregator.AllCitiesOkIff | deneme.py:39-44 | A run succeeds if and only if every city's scrape does. |
| Aggregator.AllCitiesEntries | deneme.py:39-48 | A successful run is dated `now` and has one entry per configured city, in configured order. Each entry carries the configured name and the records of that city's scrape. |
| Aggregator.FirstFailingCityDecides | deneme.py:39-44 | A failed run reports the exception of the first city that failed, and the earlier cities are lost. |
| Scenarios.CapacityWithSeparators | deneme.py:30 | "1.234.567" is read as 1234567. |
| Scenarios.SeparatorRefused | deneme.py:30 | `int()` refuses "\x1c5": U+001C is not whitespace to `int()`. |
| Scenarios.SeparatorStripped | deneme.py:26 | `str.strip()` does remove U+001C from "\x1c5". |
| Scenarios.PlainName | deneme.py:29 | A stripped cell without `-` is its own name. |
| Scenarios.NameBeforeMarker | deneme.py:29 | "DamName-->extra" names "DamName". |
| Scenarios.NameAfterLeadingMarker | deneme.py:29 | "-->DamName" names the empty string. |
| Scenarios.GroupedCapacity | deneme.py:30 | A cell in the tables' number format holds the value of its digits. |
| Scenarios.LoneTotalCell | deneme.py:25-27 | A total row with a single cell is skipped without an error. |
| Scenarios.TwoDamsAndTotal | deneme.py:24-34 | Two reservoir rows followed by the total row give exactly the two records, in table order. |
| Scenarios.TwoCities | deneme.py:37-48 | Two cities give two entries in configured order, dated `now`. The second city's empty table gives it an empty list. |

## Left out

- Exceptions: the model captures only which exception each row raises and in what order. The failure kinds are `IndexError`, `ValueError` from `int()` or `float()`, and `AttributeError` for a missing `tbody`. Their messages and tracebacks are not modelled.
- The HTTP request and its headers (deneme.py:10-20, including the random user agent) are not modelled. They are the `fetch` parameter, and a failed request is one error value. `requests.get` does not raise on an HTTP error status: such a response is an ordinary page given by `fetch`.
- HTML parsing by BeautifulSoup is not modelled. A page is the list of `td` cell texts of the rows of its first `tbody`. Nested tags and `.text` concatenation are out of scope.
- `float()` is not modelled. It is the `parseFloat` parameter, and IEEE rounding, `inf` and `nan` are not captured.
- `datetime.now()` is the `now` parameter, fixed before the city loop starts. Python reads the clock only after every city is scraped (deneme.py:46), and not at all on a failed run. The model does not capture when the clock is read, nor its value.
- `fetch` is one fixed function of the URL. Python sends a fresh request for each city (deneme.py:20, 42), so the same URL listed twice can give two different pages. In the model it gives the same page both times, and `AllCitiesEntries` relies on this.
- The hard-coded city list, `scrape()` and the final `print` (deneme.py:51-80) are configuration and output. They are not modelled.
- The `KeyError` that `u['name']` or `u['url']` would raise for a malformed city entry is out of scope. A city source is a typed record with both fields.
- PyInt.ParseInt: Python's 4300-digit limit on `int()` and its acceptance of non-ASCII Unicode digits are not modelled. Only ASCII digits are parsed, with no length limit. The value of a signed literal is given by the body and by `ParseFormat` and `ParsePadded`, not by a separate lemma.
