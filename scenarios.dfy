/** Worked examples: concrete cells, rows and tables run through the
    model. */
module Scenarios {
  import opened Wrappers
  import opened PyStr
  import opened PyInt
  import opened FailFast
  import opened TableParser
  import opened Aggregator

  /** A text without '-' cannot hold the marker. */
  lemma NoDashNoMarker(s: string)
    requires '-' !in s
    ensures !Contains(s, Marker)
  {
    forall i: nat | i + 3 <= |s| ensures !OccursAt(s, Marker, i) {
      assert s[i..i + 3][0] == s[i] != '-';
    }
  }

  /** "1.234.567" is read as 1234567. */
  lemma CapacityWithSeparators()
    ensures Capacity("1.234.567") == Some(1234567)
  {
    DotsRemoved("1234567");
    ParseSevenDigits(RemoveChar("1.234.567", '.'));
  }

  lemma ParseSevenDigits(d: string)
    requires d == "1234567"
    ensures ParseInt(d) == Some(1234567)
  {
    ParseDigits(d);
    SevenDigits();
  }

  lemma GroupFourDigits(d: string)
    requires d == "1234"
    ensures GroupThousands(d) == "1.234"
  {
    assert d[..1] == "1" && d[1..] == "234";
  }

  /** "1.234.567" is 1234567 written in the tables' format. */
  lemma DotsRemoved(d: string)
    requires d == "1234567"
    ensures RemoveChar("1.234.567", '.') == d
  {
    assert d[..4] == "1234" && d[4..] == "567";
    GroupFourDigits(d[..4]);
    assert GroupThousands(d) == "1.234.567";
  }

  lemma SevenDigits()
    ensures LiteralValue("1234567") == 1234567
  {
    var d := "1234567";
    assert LiteralValue(d[..1]) == 1;
    assert d[..2][..1] == d[..1];
    assert LiteralValue(d[..2]) == 12;
    assert d[..3][..2] == d[..2];
    assert LiteralValue(d[..3]) == 123;
    assert d[..4][..3] == d[..3];
    assert LiteralValue(d[..4]) == 1234;
    assert d[..5][..4] == d[..4];
    assert LiteralValue(d[..5]) == 12345;
    assert d[..6][..5] == d[..5];
    assert LiteralValue(d[..6]) == 123456;
    assert d[..7][..6] == d[..6];
    assert LiteralValue(d[..7]) == 1234567;
  }

  /** `int()` refuses the ASCII separator U+001C in front of a number. */
  lemma SeparatorRefused(s: string)
    requires s == "\U{1C}5"
    ensures ParseInt(s) == None
  {
    assert !IsBlank(IntBlanks, s[0]) && !IsBlank(IntBlanks, s[1]);
    StripByKeepsStripped(s, IntBlanks);
    assert !IsDigit(s[0]);
  }

  /** `str.strip()` removes that separator. */
  lemma SeparatorStripped(s: string)
    requires s == "\U{1C}5"
    ensures Strip(s) == s[1..]
  {
    assert IsBlank(StrBlanks, s[0]) && !IsBlank(StrBlanks, s[1]);
    StripByPadding(s[..1], s[1..], [], StrBlanks);
    assert s[..1] + s[1..] + [] == s;
  }

  /** A cell with no surrounding whitespace and no '-' is its own name. */
  lemma PlainName(cell: string)
    requires IsStripped(cell) && '-' !in cell
    ensures CellName(cell) == cell
  {
    NoDashNoMarker(cell);
    CellNameMarker(cell);
  }

  /** The head of a split is the text before the first marker. */
  lemma SplitAtFirstMarker(s: string, i: nat)
    requires OccursAt(s, Marker, i)
    requires forall k: nat :: k < i ==> !OccursAt(s, Marker, k)
    ensures SplitHead(s, Marker) == s[..i]
  {
    assert Contains(s, Marker);
  }

  lemma MarkerAtSeven(cell: string)
    requires cell == "DamName-->extra"
    ensures IsStripped(cell) && IsStripped(cell[..7])
    ensures OccursAt(cell, Marker, 7)
    ensures forall k: nat :: k < 7 ==> !OccursAt(cell, Marker, k)
  {
    forall k: nat | k < 7 ensures !OccursAt(cell, Marker, k) {
      assert cell[k..k + 3][0] == cell[k] != '-';
    }
  }

  /** Only the part before the marker is kept: "DamName-->extra" names
      "DamName". */
  lemma NameBeforeMarker(cell: string)
    requires cell == "DamName-->extra"
    ensures CellName(cell) == "DamName"
  {
    MarkerAtSeven(cell);
    assert Strip(cell) == cell;
    SplitAtFirstMarker(cell, 7);
    assert Strip(cell[..7]) == cell[..7];
  }

  lemma MarkerAtStart(cell: string)
    requires cell == "-->DamName"
    ensures IsStripped(cell) && OccursAt(cell, Marker, 0)
  {
  }

  /** A cell that starts with the marker names nothing: "-->DamName" gives
      the empty name. */
  lemma NameAfterLeadingMarker(cell: string)
    requires cell == "-->DamName"
    ensures CellName(cell) == []
  {
    MarkerAtStart(cell);
    CellNameMarker(cell);
  }

  /** A cell in the tables' number format holds the value of its digits. */
  lemma GroupedCapacity(cell: string, d: string)
    requires d != [] && AllDigits(d) && '.' !in d && cell == GroupThousands(d)
    ensures Capacity(cell) == Some(LiteralValue(d))
  {
    ParseDigits(d);
  }

  /** Four digits are written with one separator after the first. */
  lemma FourDigitGroups(d: string)
    requires |d| == 4 && AllDigits(d)
    ensures '.' !in d
    ensures GroupThousands(d) == d[..1] + "." + d[1..]
  {
  }

  lemma FourDigitValue(d: string, n: nat)
    requires |d| == 4 && AllDigits(d)
    requires n == 1000 * DigitValue(d[0]) + 100 * DigitValue(d[1]) + 10 * DigitValue(d[2]) + DigitValue(d[3])
    ensures LiteralValue(d) == n
  {
    assert d[..3][..2][..1] == d[..1] && d[..1][..0] == [];
    assert d[..3][..2] == d[..2] && d[..4][..3] == d[..3] && d[..4] == d;
    assert LiteralValue(d[..1]) == DigitValue(d[0]);
    assert LiteralValue(d[..2]) == 10 * DigitValue(d[0]) + DigitValue(d[1]);
    assert LiteralValue(d[..3]) == 100 * DigitValue(d[0]) + 10 * DigitValue(d[1]) + DigitValue(d[2]);
  }

  /** A four-digit capacity written with its separator. */
  lemma ThousandsCell(cell: string, d: string)
    requires |d| == 4 && AllDigits(d) && cell == d[..1] + "." + d[1..]
    ensures Capacity(cell) == Some(LiteralValue(d))
  {
    FourDigitGroups(d);
    GroupedCapacity(cell, d);
  }

  /** A data row whose first cell is a plain name. */
  lemma PlainDataRow(row: Row, parseFloat: string -> Option<real>)
    requires |row| == 3 && IsStripped(row[0]) && '-' !in row[0] && row[0] != Total
    requires Capacity(row[1]).Some? && parseFloat(row[2]).Some?
    ensures ParseRow(row, parseFloat)
              == Keep(Record(row[0], Capacity(row[1]).value, parseFloat(row[2]).value))
  {
    PlainName(row[0]);
    ParseRowCases(row, parseFloat);
  }

  lemma SampleNames(name: string)
    requires name == "Dam A" || name == "Dam B"
    ensures IsStripped(name) && '-' !in name && name != Total
  {
  }

  lemma SampleCapacity(cell: string, d: string, n: nat)
    requires |d| == 4 && AllDigits(d) && cell == d[..1] + "." + d[1..]
    requires n == 1000 * DigitValue(d[0]) + 100 * DigitValue(d[1]) + 10 * DigitValue(d[2]) + DigitValue(d[3])
    ensures Capacity(cell) == Some(n)
  {
    FourDigitValue(d, n);
    ThousandsCell(cell, d);
  }

  /** A sample data row: a plain name and a four-digit capacity. */
  lemma SampleDataRow(row: Row, parseFloat: string -> Option<real>, d: string, n: nat)
    requires |row| == 3 && IsStripped(row[0]) && '-' !in row[0] && row[0] != Total
    requires |d| == 4 && AllDigits(d) && row[1] == d[..1] + "." + d[1..]
    requires n == 1000 * DigitValue(d[0]) + 100 * DigitValue(d[1]) + 10 * DigitValue(d[2]) + DigitValue(d[3])
    requires parseFloat(row[2]).Some?
    ensures ParseRow(row, parseFloat) == Keep(Record(row[0], n, parseFloat(row[2]).value))
  {
    SampleCapacity(row[1], d, n);
    PlainDataRow(row, parseFloat);
  }

  /** The sample table body: two reservoirs and the total row. */
  const SampleBody: seq<Row> :=
    [["Dam A", "1.000", "50.0"], ["Dam B", "2.500", "75.25"], ["TOPLAM", "3.500", "100.0"]]

  lemma SampleFirstRow(rows: seq<Row>, parseFloat: string -> Option<real>)
    requires rows == SampleBody && parseFloat("50.0") == Some(50.0)
    ensures ParseRow(rows[0], parseFloat) == Keep(Record("Dam A", 1000, 50.0))
  {
    SampleNames(rows[0][0]);
    SampleDataRow(rows[0], parseFloat, "1000", 1000);
  }

  lemma SampleSecondRow(rows: seq<Row>, parseFloat: string -> Option<real>)
    requires rows == SampleBody && parseFloat("75.25") == Some(75.25)
    ensures ParseRow(rows[1], parseFloat) == Keep(Record("Dam B", 2500, 75.25))
  {
    SampleNames(rows[1][0]);
    SampleDataRow(rows[1], parseFloat, "2500", 2500);
  }

  lemma SampleTotalRow(rows: seq<Row>, parseFloat: string -> Option<real>)
    requires rows == SampleBody
    ensures ParseRow(rows[2], parseFloat) == Skip
  {
    assert IsStripped(rows[2][0]);
  }

  /** A total row with a single cell is skipped without an error, since
      the skip happens before its second cell would be read. */
  lemma LoneTotalCell(rows: seq<Row>, parseFloat: string -> Option<real>)
    requires rows == [["TOPLAM"]]
    ensures ParseTableBody(rows, parseFloat) == Ok([])
  {
    assert IsStripped(rows[0][0]);
    OnlyTotalRows(rows, parseFloat);
  }

  /** A walk over two kept elements and a skipped one. */
  lemma KeepKeepSkip<T, U, E>(xs: seq<T>, step: T -> Step<U, E>, first: U, second: U)
    requires |xs| == 3
    requires step(xs[0]) == Keep(first) && step(xs[1]) == Keep(second) && step(xs[2]) == Skip
    ensures Collect(xs, step) == Ok([first, second])
  {
    assert xs[..0] == [];
    CollectNext(xs, step, 0);
    assert [] + [first] == [first];
    CollectNext(xs, step, 1);
    assert [first] + [second] == [first, second];
    CollectNext(xs, step, 2);
    assert xs[..3] == xs;
  }

  /** Two reservoirs and the total row give exactly the two reservoirs'
      records, in table order. */
  lemma TwoDamsAndTotal(rows: seq<Row>, parseFloat: string -> Option<real>)
    requires rows == SampleBody
    requires parseFloat("50.0") == Some(50.0) && parseFloat("75.25") == Some(75.25)
    ensures ParseTableBody(rows, parseFloat)
              == Ok([Record("Dam A", 1000, 50.0), Record("Dam B", 2500, 75.25)])
  {
    SampleFirstRow(rows, parseFloat);
    SampleSecondRow(rows, parseFloat);
    SampleTotalRow(rows, parseFloat);
    KeepKeepSkip(rows, RowParser(parseFloat), Record("Dam A", 1000, 50.0), Record("Dam B", 2500, 75.25));
  }

  /** Two cities, the first with one reservoir and the second with an empty
      table body: two entries in configured order, the second with no
      records, dated `now`. */
  lemma TwoCities(fetch: string -> Option<Document>, parseFloat: string -> Option<real>,
                  sources: seq<CitySource>, now: int, first: string, second: string, record: Record)
    requires sources == [CitySource("ankara", first), CitySource("izmir", second)]
    requires Scrape(fetch, parseFloat, first) == Ok([record])
    requires fetch(second) == Some(Document(Some([])))
    ensures AllCities(fetch, parseFloat, sources, now)
              == Ok(Snapshot(now, [City("ankara", [record]), City("izmir", [])]))
  {
    assert Scrape(fetch, parseFloat, second) == Ok([]);
    AllCitiesOkIff(fetch, parseFloat, sources, now);
    AllCitiesEntries(fetch, parseFloat, sources, now);
    var snapshot := AllCities(fetch, parseFloat, sources, now).value;
    assert snapshot.cities == [City("ankara", [record]), City("izmir", [])];
  }
}
