/** `get_data`: turns the rows of a page's first table body into reservoir
    records, skipping the "TOPLAM" (total) row. A row is given as the texts
    of its `td` cells; fetching and HTML parsing are parameters. */
module TableParser {
  import opened Wrappers
  import opened PyStr
  import opened PyInt
  import opened FailFast

  /** The texts of one row's `td` cells, in column order. */
  type Row = seq<string>

  /** One reservoir: its name, its capacity and how full it is, in percent. */
  datatype Record = Record(name: string, capacity: int, filledPercentage: real)

  /** The exceptions that abort a scrape. */
  datatype Error =
    | TransportError(url: string)   // the HTTP request failed
    | NoTableBody                   // the page has no tbody element
    | IndexError(column: nat)       // the row has no cell at this column
    | IntError(literal: string)     // int() refused this text
    | FloatError(literal: string)   // float() refused this text

  /** A fetched page, as far as the parser looks at it: the rows of its
      first tbody element, or None when it has none. */
  datatype Document = Document(tbody: Option<seq<Row>>)

  /** The first cell of the summary row. */
  const Total := "TOPLAM"

  /** What separates a reservoir's name from trailing remarks in its cell. */
  const Marker := "-->"

  /** The summary row, which carries no reservoir. */
  predicate IsTotalRow(row: Row) {
    |row| > 0 && Strip(row[0]) == Total
  }

  /** The name in a row's first cell: the stripped text up to the first
      marker, stripped again. */
  function CellName(cell: string): string {
    Strip(SplitHead(Strip(cell), Marker))
  }

  /** A name is a piece of the stripped cell text. */
  lemma CellNameInCell(cell: string)
    ensures Contains(Strip(cell), CellName(cell))
  {
    var text := Strip(cell);
    var head := SplitHead(text, Marker);
    var i := |head| - |TrimStartBy(head, StrBlanks)|;
    OccursInSlice(text, CellName(cell), 0, |head|, i);
  }

  /** A name has no whitespace at either end and holds no marker. */
  lemma CellNameShape(cell: string)
    ensures IsStripped(CellName(cell))
    ensures !Contains(CellName(cell), Marker)
  {
    var head := SplitHead(Strip(cell), Marker);
    StripByStripped(head, StrBlanks);
    StripKeepsAbsence(head, Marker, StrBlanks);
  }

  /** Without a marker the name is the whole stripped cell text; with the
      marker at its very start the name is empty. */
  lemma CellNameMarker(cell: string)
    ensures !Contains(Strip(cell), Marker) ==> CellName(cell) == Strip(cell)
    ensures OccursAt(Strip(cell), Marker, 0) ==> CellName(cell) == []
  {
    var text := Strip(cell);
    if OccursAt(text, Marker, 0) {
      assert Contains(text, Marker);
      assert |SplitHead(text, Marker)| == 0;
    }
  }

  /** The capacity in a row's second cell: `int()` of the text once every
      '.' (the thousands separator) is deleted. */
  function Capacity(cell: string): Option<int> {
    ParseInt(RemoveChar(cell, '.'))
  }

  /** How the tables print a number: a '.' between groups of three digits,
      counted from the right. */
  function GroupThousands(d: string): (r: string)
    requires '.' !in d
    ensures RemoveChar(r, '.') == d
  {
    if |d| <= 3 then
      RemoveCharAbsent(d, '.');
      d
    else
      var front, back := d[..|d| - 3], d[|d| - 3..];
      assert d == front + back;
      assert '.' !in front && '.' !in back;
      var g := GroupThousands(front);
      RemoveCharAbsent(back, '.');
      RemoveCharAppend(g + ".", back, '.');
      RemoveCharAppend(g, ".", '.');
      g + "." + back
  }

  /** A capacity cell made of digits and dots, with at least one digit,
      yields the number its digits spell, which is never negative. */
  lemma CapacityOfDigitsAndDots(cell: string)
    requires forall k :: 0 <= k < |cell| ==> IsDigit(cell[k]) || cell[k] == '.'
    requires exists k :: 0 <= k < |cell| && IsDigit(cell[k])
    ensures AllDigits(RemoveChar(cell, '.'))
    ensures Capacity(cell) == Some(LiteralValue(RemoveChar(cell, '.')))
    ensures Capacity(cell).value >= 0
  {
    DotsLeaveDigits(cell);
    CapacityOfDigits(cell);
  }

  /** Deleting the dots of a cell of digits and dots, with at least one
      digit, leaves a non-empty run of digits. */
  lemma DotsLeaveDigits(cell: string)
    requires forall k :: 0 <= k < |cell| ==> IsDigit(cell[k]) || cell[k] == '.'
    requires exists k :: 0 <= k < |cell| && IsDigit(cell[k])
    ensures RemoveChar(cell, '.') != [] && AllDigits(RemoveChar(cell, '.'))
  {
    var d := RemoveChar(cell, '.');
    RemoveCharMembers(cell, '.');
    forall k | 0 <= k < |d| ensures IsDigit(d[k]) {
      assert d[k] in cell;
    }
    var j :| 0 <= j < |cell| && IsDigit(cell[j]);
    assert cell[j] in d;
  }

  /** A capacity cell whose text without dots is a run of digits. */
  lemma CapacityOfDigits(cell: string)
    requires RemoveChar(cell, '.') != [] && AllDigits(RemoveChar(cell, '.'))
    ensures Capacity(cell) == Some(LiteralValue(RemoveChar(cell, '.')))
  {
    ParseDigits(RemoveChar(cell, '.'));
  }

  /** The same holds with whitespace around the number, as a table cell's
      text often has: `int()` skips it. */
  lemma CapacityOfPaddedCell(pre: string, core: string, post: string)
    requires forall k :: 0 <= k < |pre| ==> IsBlank(IntBlanks, pre[k])
    requires forall k :: 0 <= k < |post| ==> IsBlank(IntBlanks, post[k])
    requires forall k :: 0 <= k < |core| ==> IsDigit(core[k]) || core[k] == '.'
    requires exists k :: 0 <= k < |core| && IsDigit(core[k])
    ensures Capacity(pre + core + post) == Capacity(core)
  {
    var d := RemoveChar(core, '.');
    DotsLeaveDigits(core);
    PaddingHasNoDots(pre, core, post);
    assert IsDigit(d[0]) && IsDigit(d[|d| - 1]);
    StripByPadding(pre, d, post, IntBlanks);
    ParseIntStrip(pre + d + post);
    ParseIntStrip(d);
  }

  /** Deleting the dots leaves whitespace padding as it is. */
  lemma PaddingHasNoDots(pre: string, core: string, post: string)
    requires forall k :: 0 <= k < |pre| ==> IsBlank(IntBlanks, pre[k])
    requires forall k :: 0 <= k < |post| ==> IsBlank(IntBlanks, post[k])
    ensures RemoveChar(pre + core + post, '.') == pre + RemoveChar(core, '.') + post
  {
    assert '.' !in pre && '.' !in post by {
      assert !IsBlank(IntBlanks, '.');
    }
    RemoveCharAbsent(pre, '.');
    RemoveCharAbsent(post, '.');
    RemoveCharAppend(pre + core, post, '.');
    RemoveCharAppend(pre, core, '.');
  }

  /** Every natural number printed in the tables' format reads back as
      itself. */
  lemma CapacityOfGrouped(n: nat)
    ensures Capacity(GroupThousands(Decimal(n))) == Some(n)
  {
    ParseDigits(Decimal(n));
  }

  /** One row's contribution: skipped when it is the total row, a record
      when all three cells are present and parse, otherwise the exception
      Python raises first (the name is read first, then the capacity, then
      the percentage). */
  function ParseRow(row: Row, parseFloat: string -> Option<real>): Step<Record, Error> {
    if |row| == 0 then Fail(IndexError(0))
    else if Strip(row[0]) == Total then Skip
    else
      var name := CellName(row[0]);
      if |row| < 2 then Fail(IndexError(1))
      else
        match Capacity(row[1])
        case None => Fail(IntError(RemoveChar(row[1], '.')))
        case Some(capacity) =>
          if |row| < 3 then Fail(IndexError(2))
          else
            match parseFloat(row[2])
            case None => Fail(FloatError(row[2]))
            case Some(percentage) => Keep(Record(name, capacity, percentage))
  }

  /** What a row yields: only the total row is skipped, even when it has a
      single cell; an empty row fails on its first cell; any other row
      shorter than three cells, or whose capacity does not parse, fails;
      every other row whose percentage parses gives the record of its
      three cells. */
  lemma ParseRowCases(row: Row, parseFloat: string -> Option<real>)
    ensures ParseRow(row, parseFloat).Skip? <==> IsTotalRow(row)
    ensures |row| == 0 ==> ParseRow(row, parseFloat) == Fail(IndexError(0))
    ensures !IsTotalRow(row) && |row| < 3 ==> ParseRow(row, parseFloat).Fail?
    ensures !IsTotalRow(row) && |row| >= 2 && Capacity(row[1]).None? ==>
              ParseRow(row, parseFloat) == Fail(IntError(RemoveChar(row[1], '.')))
    ensures ParseRow(row, parseFloat).Keep? <==>
              !IsTotalRow(row) && |row| >= 3 && Capacity(row[1]).Some? && parseFloat(row[2]).Some?
    ensures ParseRow(row, parseFloat).Keep? ==>
              ParseRow(row, parseFloat).value
                == Record(CellName(row[0]), Capacity(row[1]).value, parseFloat(row[2]).value)
  {
  }

  function RowParser(parseFloat: string -> Option<real>): Row -> Step<Record, Error> {
    row => ParseRow(row, parseFloat)
  }

  /** The records of a table body, or the first exception. */
  function ParseTableBody(rows: seq<Row>, parseFloat: string -> Option<real>): Result<seq<Record>, Error> {
    Collect(rows, RowParser(parseFloat))
  }

  /** Keeps every row but the total row, whatever its cells hold. */
  function DataRow(row: Row): Step<Row, Error> {
    if IsTotalRow(row) then Skip else Keep(row)
  }

  /** The positions of the rows that are not the total row. */
  function DataRowIndices(rows: seq<Row>): seq<nat> {
    KeptIndices(rows, DataRow)
  }

  /** A successful parse yields one record per row that is not the total
      row, in row order, each the record of that row; so never more records
      than rows. */
  lemma ParseTableBodyRecords(rows: seq<Row>, parseFloat: string -> Option<real>)
    requires ParseTableBody(rows, parseFloat).Ok?
    ensures var records, idx := ParseTableBody(rows, parseFloat).value, DataRowIndices(rows);
      && |records| == |idx| <= |rows|
      && (forall i :: 0 <= i < |rows| ==> (i in idx <==> !IsTotalRow(rows[i])))
      && (forall k, l :: 0 <= k < l < |idx| ==> idx[k] < idx[l])
      && (forall k :: 0 <= k < |idx| ==> idx[k] < |rows| && ParseRow(rows[idx[k]], parseFloat) == Keep(records[k]))
  {
    var step := RowParser(parseFloat);
    CollectOkIff(rows, step);
    forall i | 0 <= i < |rows| ensures step(rows[i]).Keep? <==> DataRow(rows[i]).Keep? {
      ParseRowCases(rows[i], parseFloat);
    }
    KeptIndicesAgree(rows, step, DataRow);
    CollectKept(rows, step);
  }

  /** A parse fails exactly when some row fails, and then with the
      exception of the first such row. */
  lemma ParseTableBodyFails(rows: seq<Row>, parseFloat: string -> Option<real>)
    ensures ParseTableBody(rows, parseFloat).Err? <==>
              exists i :: 0 <= i < |rows| && ParseRow(rows[i], parseFloat).Fail?
  {
    CollectOkIff(rows, RowParser(parseFloat));
  }

  /** The first failing row decides the exception the whole parse raises. */
  lemma FirstBadRowDecides(rows: seq<Row>, parseFloat: string -> Option<real>, i: nat)
    requires i < |rows| && ParseRow(rows[i], parseFloat).Fail?
    requires forall j :: 0 <= j < i ==> !ParseRow(rows[j], parseFloat).Fail?
    ensures ParseTableBody(rows, parseFloat) == Err(ParseRow(rows[i], parseFloat).error)
  {
    CollectFirstFailure(rows, RowParser(parseFloat), i);
  }

  /** A row that is not the total row and has fewer than three cells, an
      empty row included, makes the whole parse fail. */
  lemma ShortRowAborts(rows: seq<Row>, parseFloat: string -> Option<real>, i: nat)
    requires i < |rows| && !IsTotalRow(rows[i]) && |rows[i]| < 3
    ensures ParseTableBody(rows, parseFloat).Err?
  {
    ParseRowCases(rows[i], parseFloat);
    ParseTableBodyFails(rows, parseFloat);
  }

  /** A capacity that `int()` refuses makes the whole parse fail rather
      than dropping the row. */
  lemma BadCapacityAborts(rows: seq<Row>, parseFloat: string -> Option<real>, i: nat)
    requires i < |rows| && !IsTotalRow(rows[i]) && |rows[i]| >= 2 && Capacity(rows[i][1]).None?
    ensures ParseTableBody(rows, parseFloat).Err?
  {
    ParseRowCases(rows[i], parseFloat);
    ParseTableBodyFails(rows, parseFloat);
  }

  /** A body holding only total rows, or no rows at all, parses to no
      records; total rows are skipped before their other cells are read. */
  lemma {:induction false} OnlyTotalRows(rows: seq<Row>, parseFloat: string -> Option<real>)
    requires forall i :: 0 <= i < |rows| ==> IsTotalRow(rows[i])
    ensures ParseTableBody(rows, parseFloat) == Ok([])
  {
    if rows != [] {
      var n := |rows| - 1;
      assert forall j :: 0 <= j < n ==> rows[..n][j] == rows[j];
      OnlyTotalRows(rows[..n], parseFloat);
      ParseRowCases(rows[n], parseFloat);
    }
  }

  /** `get_data(url)` up to the returned list: the page, its table body,
      then one record per data row, appended in row order. */
  function Scrape(fetch: string -> Option<Document>, parseFloat: string -> Option<real>, url: string)
    : Result<seq<Record>, Error>
  {
    match fetch(url)
    case None => Err(TransportError(url))
    case Some(page) =>
      match page.tbody
      case None => Err(NoTableBody)
      case Some(rows) => ParseTableBody(rows, parseFloat)
  }

  /** A failed request and a page without a table body are errors, never
      an empty list of records. */
  lemma ScrapeErrors(fetch: string -> Option<Document>, parseFloat: string -> Option<real>, url: string)
    ensures fetch(url).None? ==> Scrape(fetch, parseFloat, url) == Err(TransportError(url))
    ensures fetch(url) == Some(Document(None)) ==> Scrape(fetch, parseFloat, url) == Err(NoTableBody)
  {
  }

  /** `get_data`: fetch the page, find its table body, and walk its rows,
      appending a record for each data row and stopping at the first
      exception. */
  method GetData(fetch: string -> Option<Document>, parseFloat: string -> Option<real>, url: string)
    returns (res: Result<seq<Record>, Error>)
    ensures res == Scrape(fetch, parseFloat, url)
  {
    var page := fetch(url);
    if page.None? {
      return Err(TransportError(url));
    }
    if page.value.tbody.None? {
      return Err(NoTableBody);
    }
    var rows := page.value.tbody.value;
    var result: seq<Record> := [];
    var i := 0;
    while i < |rows|
      invariant 0 <= i <= |rows|
      invariant Collect(rows[..i], RowParser(parseFloat)) == Ok(result)
    {
      CollectNext(rows, RowParser(parseFloat), i);
      match ParseRow(rows[i], parseFloat) {
        case Skip =>
        case Keep(record) =>
          result := result + [record];
        case Fail(e) =>
          return Err(e);
      }
      i := i + 1;
    }
    assert rows[..i] == rows;
    return Ok(result);
  }
}
