/**
 * OperationParser: turns the rows of the CSV file into Operations.
 *
 * A row is what fgetcsv returns for one line: a sequence of cells. Line
 * numbers count every row read, including the ones that are skipped. A row
 * is skipped when it is empty, when it is a header on line 1, or when it
 * does not have exactly six cells; every other row must become an
 * Operation, and the first one that cannot aborts the whole read.
 */
module OperationParser {
  import opened Errors
  import opened Strings
  import opened Calendar
  import opened OperationModel

  type Row = seq<string>

  const RequiredColumns: nat := 6

  /** What parseOperations does with a row read on a given line. */
  datatype RowKind = Blank | Header | WrongWidth | Data

  function Classify(row: Row, lineNumber: int): (k: RowKind)
    ensures k.Blank? <==> row == []
    ensures k.Header? <==> row != [] && lineNumber == 1 && ToLowerAscii(row[0]) == "date"
    ensures k.Data? <==> row != [] && |row| == RequiredColumns
                         && !(lineNumber == 1 && ToLowerAscii(row[0]) == "date")
  {
    if row == [] then Blank
    else if lineNumber == 1 && ToLowerAscii(row[0]) == "date" then Header
    else if |row| != RequiredColumns then WrongWidth
    else Data
  }

  /**
   * createOperation: a strict 'Y-m-d' date, then the Operation constructor
   * on the cast cells. A bad date is reported as such; a constructor
   * violation is wrapped as invalid operation data.
   */
  function CreateOperation(row: DataRow, supported: seq<string>, casts: Casts): (r: Result<Operation>)
    ensures r.Err? ==> r.error.InvalidDate? || r.error.InvalidOperationData?
  {
    match ParseDate(row[0])
    case None => Err(InvalidDate(row[0]))
    case Some(date) =>
      var built := NewOperation(date, casts.toInt(row[1]), row[2], row[3], casts.toReal(row[4]), row[5], supported);
      if built.Err? then Err(InvalidOperationData(built.error.violation)) else built
  }

  /**
   * A row builds exactly when its date reads strictly and the constructor
   * accepts the cast cells; the Operation then gives back the row's cells.
   */
  lemma CreateOperationCharacterized(row: DataRow, supported: seq<string>, casts: Casts)
    ensures var r := CreateOperation(row, supported, casts);
      && (ParseDate(row[0]).None? ==> r == Err(InvalidDate(row[0])))
      && (r.Ok? <==>
            && ParseDate(row[0]).Some?
            && casts.toInt(row[1]) > 0
            && (row[2] == "private" || row[2] == "business")
            && (row[3] == "deposit" || row[3] == "withdraw")
            && casts.toReal(row[4]) >= 0.0
            && row[5] in supported)
      && (r.Ok? ==>
            && IsValidOperation(r.value, supported)
            && GetDate(r.value) == row[0]
            && r.value.userId == casts.toInt(row[1])
            && GetUserType(r.value) == row[2]
            && GetOperationType(r.value) == row[3]
            && r.value.amount == casts.toReal(row[4])
            && r.value.currency == row[5])
  {
    match ParseDate(row[0])
    case None =>
    case Some(date) =>
      FormatParseDate(row[0], date);
      if NewOperation(date, casts.toInt(row[1]), row[2], row[3], casts.toReal(row[4]), row[5], supported).Ok? {
        GettersReturnConstructedValues(date, casts.toInt(row[1]), row[2], row[3], casts.toReal(row[4]), row[5], supported);
      }
  }

  /** A row with the six cells createOperation destructures. */
  type DataRow = row: Row | |row| == RequiredColumns witness ["", "", "", "", "", ""]

  /** The rows parseOperations hands to createOperation, in file order. */
  function KeptRows(rows: seq<Row>): (kept: seq<DataRow>)
    ensures |kept| <= |rows|
  {
    if rows == [] then []
    else
      var n := |rows|;
      KeptRows(rows[..n - 1]) + (if Classify(rows[n - 1], n).Data? then [rows[n - 1]] else [])
  }

  /** createOperation as a function of the row alone. */
  function Builder(supported: seq<string>, casts: Casts): DataRow -> Result<Operation> {
    (row: DataRow) => CreateOperation(row, supported, casts)
  }

  /** `build` over the rows, in order, stopping at the first failure. */
  function BuildAll(rows: seq<DataRow>, build: DataRow -> Result<Operation>): Result<seq<Operation>> {
    if rows == [] then Ok([])
    else
      var init :- BuildAll(rows[..|rows| - 1], build);
      var op :- build(rows[|rows| - 1]);
      Ok(init + [op])
  }

  /** What parseOperations returns for the rows of a file. */
  function Parse(rows: seq<Row>, supported: seq<string>, casts: Casts): Result<seq<Operation>> {
    var ops :- BuildAll(KeptRows(rows), Builder(supported, casts));
    if ops == [] then Err(NoValidOperations) else Ok(ops)
  }

  /** Row `k` of `rows` is the first one that does not build. */
  predicate FirstFailingRow(rows: seq<DataRow>, build: DataRow -> Result<Operation>, k: int) {
    && 0 <= k < |rows|
    && build(rows[k]).Err?
    && forall j :: 0 <= j < k ==> build(rows[j]).Ok?
  }

  /**
   * BuildAll succeeds exactly when every row builds, and then yields the
   * rows' Operations one for one; otherwise it reports the first failure.
   */
  lemma BuildAllCharacterized(rows: seq<DataRow>, build: DataRow -> Result<Operation>)
    ensures var r := BuildAll(rows, build);
      && (r.Ok? <==> forall k :: 0 <= k < |rows| ==> build(rows[k]).Ok?)
      && (r.Ok? ==> |r.value| == |rows| && forall k :: 0 <= k < |rows| ==> build(rows[k]) == Ok(r.value[k]))
      && (r.Err? ==> exists k :: FirstFailingRow(rows, build, k) && build(rows[k]).error == r.error)
  {
    BuildAllOk(rows, build);
    BuildAllErr(rows, build);
  }

  /** The success half of BuildAllCharacterized. */
  lemma {:induction false} BuildAllOk(rows: seq<DataRow>, build: DataRow -> Result<Operation>)
    ensures var r := BuildAll(rows, build);
      && (r.Ok? <==> forall k :: 0 <= k < |rows| ==> build(rows[k]).Ok?)
      && (r.Ok? ==> |r.value| == |rows| && forall k :: 0 <= k < |rows| ==> build(rows[k]) == Ok(r.value[k]))
  {
    if rows != [] {
      var n := |rows|;
      var init := rows[..n - 1];
      BuildAllOk(init, build);
      assert forall k :: 0 <= k < n - 1 ==> init[k] == rows[k];
      var ri := BuildAll(init, build);
      if ri.Ok? && build(rows[n - 1]).Ok? {
        var r := BuildAll(rows, build);
        assert r.value == ri.value + [build(rows[n - 1]).value];
      }
    }
  }

  /** The failure half of BuildAllCharacterized. */
  lemma {:induction false} BuildAllErr(rows: seq<DataRow>, build: DataRow -> Result<Operation>)
    ensures var r := BuildAll(rows, build);
      r.Err? ==> exists k :: FirstFailingRow(rows, build, k) && build(rows[k]).error == r.error
  {
    if rows != [] {
      var n := |rows|;
      var init := rows[..n - 1];
      var ri := BuildAll(init, build);
      if ri.Err? {
        BuildAllErr(init, build);
        var k :| FirstFailingRow(init, build, k) && build(init[k]).error == ri.error;
        assert FirstFailingRow(rows, build, k);
      } else if build(rows[n - 1]).Err? {
        BuildAllOk(init, build);
        assert forall k :: 0 <= k < n - 1 ==> init[k] == rows[k];
        assert FirstFailingRow(rows, build, n - 1);
      }
    }
  }

  /** Rows are kept exactly when they are classified as data on their own line. */
  lemma {:induction false} KeptRowsMembership(rows: seq<Row>, row: Row)
    ensures row in KeptRows(rows) <==>
      exists i :: 0 <= i < |rows| && rows[i] == row && Classify(rows[i], i + 1).Data?
  {
    if rows != [] {
      var n := |rows|;
      KeptRowsMembership(rows[..n - 1], row);
      if row in KeptRows(rows[..n - 1]) {
        var i :| 0 <= i < n - 1 && rows[..n - 1][i] == row && Classify(rows[..n - 1][i], i + 1).Data?;
        assert rows[i] == row;
      }
      if exists i :: 0 <= i < |rows| && rows[i] == row && Classify(rows[i], i + 1).Data? {
        var i :| 0 <= i < |rows| && rows[i] == row && Classify(rows[i], i + 1).Data?;
        if i < n - 1 {
          assert rows[..n - 1][i] == row;
        }
      }
    }
  }

  /** One more row read: what the loop of parseOperations appends, if anything. */
  lemma KeptRowsStep(rows: seq<Row>, i: nat)
    requires i < |rows|
    ensures Classify(rows[i], i + 1).Data? ==> KeptRows(rows[..i + 1]) == KeptRows(rows[..i]) + [rows[i]]
    ensures !Classify(rows[i], i + 1).Data? ==> KeptRows(rows[..i + 1]) == KeptRows(rows[..i])
  {
    assert rows[..i + 1][..i] == rows[..i];
  }

  /** A failure among the first rows is the failure of the whole file. */
  lemma {:induction false} BuildAllErrorPersists(rows: seq<Row>, i: nat, build: DataRow -> Result<Operation>)
    requires i <= |rows|
    requires BuildAll(KeptRows(rows[..i]), build).Err?
    ensures BuildAll(KeptRows(rows), build) == BuildAll(KeptRows(rows[..i]), build)
    decreases |rows| - i
  {
    if i < |rows| {
      KeptRowsStep(rows, i);
      var before := KeptRows(rows[..i]);
      var after := KeptRows(rows[..i + 1]);
      if after != before {
        assert after[..|after| - 1] == before;
      }
      BuildAllErrorPersists(rows, i + 1, build);
    } else {
      assert rows[..i] == rows;
    }
  }

  /** Appending a row appends its Operation, or reports its failure. */
  lemma BuildAllSnoc(rows: seq<DataRow>, row: DataRow, build: DataRow -> Result<Operation>)
    requires BuildAll(rows, build).Ok?
    ensures build(row).Ok? ==> BuildAll(rows + [row], build) == Ok(BuildAll(rows, build).value + [build(row).value])
    ensures build(row).Err? ==> BuildAll(rows + [row], build) == Err(build(row).error)
  {
    assert (rows + [row])[..|rows|] == rows;
  }

  /** parseOperations over the rows fgetcsv returns, one after the other. */
  method ParseOperations(rows: seq<Row>, supported: seq<string>, casts: Casts)
    returns (r: Result<seq<Operation>>)
    ensures r == Parse(rows, supported, casts)
  {
    ghost var build := Builder(supported, casts);
    var operations: seq<Operation> := [];
    var lineNumber := 0;
    var i := 0;
    while i < |rows|
      invariant 0 <= i <= |rows| && lineNumber == i
      invariant BuildAll(KeptRows(rows[..i]), build) == Ok(operations)
    {
      var data := rows[i];
      lineNumber := lineNumber + 1;
      KeptRowsStep(rows, i);
      i := i + 1;
      if data == [] {
        continue;
      }
      if lineNumber == 1 && ToLowerAscii(data[0]) == "date" {
        continue;
      }
      if |data| != RequiredColumns {
        continue;
      }
      var created := CreateOperation(data, supported, casts);
      assert build(data) == created;
      BuildAllSnoc(KeptRows(rows[..i - 1]), data, build);
      if created.Err? {
        BuildAllErrorPersists(rows, i, build);
        return Err(created.error);
      }
      operations := operations + [created.value];
    }
    assert rows[..i] == rows;
    if operations == [] {
      return Err(NoValidOperations);
    }
    return Ok(operations);
  }

  /**
   * A successful read yields one Operation per kept row, built from that
   * row; at least one row was kept.
   */
  lemma ParseOk(rows: seq<Row>, supported: seq<string>, casts: Casts)
    requires Parse(rows, supported, casts).Ok?
    ensures var ops := Parse(rows, supported, casts).value;
      var kept := KeptRows(rows);
      && |ops| == |kept| >= 1
      && forall k :: 0 <= k < |kept| ==> CreateOperation(kept[k], supported, casts) == Ok(ops[k])
  {
    BuildAllCharacterized(KeptRows(rows), Builder(supported, casts));
  }

  /**
   * A failed read is either "no valid operations", when every row was
   * skipped, or the failure of the first kept row that does not build.
   */
  lemma ParseErr(rows: seq<Row>, supported: seq<string>, casts: Casts)
    ensures var r := Parse(rows, supported, casts);
      var kept := KeptRows(rows);
      var build := Builder(supported, casts);
      && (kept == [] ==> r == Err(NoValidOperations))
      && (r.Err? && kept != [] ==>
            exists k :: FirstFailingRow(kept, build, k) && build(kept[k]).error == r.error)
      && (r.Err? <==> kept == [] || exists k :: FirstFailingRow(kept, build, k))
  {
    var kept := KeptRows(rows);
    var build := Builder(supported, casts);
    BuildAllCharacterized(kept, build);
    if exists k :: FirstFailingRow(kept, build, k) {
      var k :| FirstFailingRow(kept, build, k);
      assert build(kept[k]).Err?;
    }
  }

  /** The header row of the example input files. */
  const HeaderRow: Row := ["date", "user_id", "user_type", "operation_type", "amount", "currency"]

  /** A header on line 1 is skipped, even in upper case. */
  lemma HeaderOnFirstLineSkipped(rows: seq<Row>, header: Row)
    requires header != [] && ToLowerAscii(header[0]) == "date"
    ensures KeptRows([header] + rows) == KeptRows([[]] + rows)
  {
    HeaderSkippedUpTo([header] + rows, [[]] + rows, |rows| + 1);
    assert ([header] + rows)[..|rows| + 1] == [header] + rows;
    assert ([[]] + rows)[..|rows| + 1] == [[]] + rows;
  }

  lemma {:induction false} HeaderSkippedUpTo(a: seq<Row>, b: seq<Row>, n: nat)
    requires |a| == |b| && 1 <= n <= |a|
    requires a[0] != [] && ToLowerAscii(a[0][0]) == "date" && b[0] == []
    requires forall i :: 1 <= i < |a| ==> a[i] == b[i]
    ensures KeptRows(a[..n]) == KeptRows(b[..n])
  {
    if n == 1 {
      assert a[..1][..0] == [] && b[..1][..0] == [];
    } else {
      HeaderSkippedUpTo(a, b, n - 1);
      KeptRowsStep(a, n - 1);
      KeptRowsStep(b, n - 1);
    }
  }

  /**
   * Line numbers count skipped rows too: after a blank first line, a header
   * row on line 2 is taken as data and its "date" cell is refused.
   */
  lemma HeaderAfterBlankLineIsData(supported: seq<string>, casts: Casts)
    ensures Parse([[], HeaderRow], supported, casts) == Err(InvalidDate("date"))
  {
    var rows: seq<Row> := [[], HeaderRow];
    KeptRowsStep(rows, 0);
    KeptRowsStep(rows, 1);
    assert rows[..0] == [] && rows[..2] == rows;
    assert KeptRows(rows) == [HeaderRow];
    assert ParseDate("date").None?;
    var build := Builder(supported, casts);
    assert build(HeaderRow) == Err(InvalidDate("date"));
    assert BuildAll([HeaderRow][..0], build) == Ok([]);
    assert BuildAll([HeaderRow], build) == Err(InvalidDate("date"));
  }
}
