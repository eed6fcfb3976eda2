/** One date's dataset as both analysers receive it: rows of named fields
    and a per-column statistics record computed by the backend. */
module Dataset {
  import opened Basics

  /** The field naming a row's timestamp; it is never a data column. */
  const TIME: string := "time"

  /** One data row. `keys` lists the row's fields in their own order (the
      order `Object.keys` reports); `numbers` holds the fields whose value
      converts to a number, already converted. A key outside `numbers`
      converts to NaN. */
  datatype Row = Row(keys: seq<string>, numbers: map<string, real>)

  /** The backend's descriptive statistics of one column. */
  datatype Stats = Stats(avg: real, min: real, max: real, std: real)

  function NotTime(key: string): bool { key != TIME }

  /** The data columns: the keys of the first row except `"time"`, in the
      first row's order; none when there are no rows. */
  function Columns(rows: seq<Row>): (r: seq<string>)
    ensures rows == [] ==> r == []
    ensures rows != [] ==> Subsequence(r, rows[0].keys)
    ensures forall k :: 0 <= k < |r| ==> r[k] != TIME && rows != [] && r[k] in rows[0].keys
    ensures rows != [] ==> forall key :: key in rows[0].keys && key != TIME ==> key in r
  {
    if rows == [] then []
    else
      FilterIsSubsequence(rows[0].keys, NotTime);
      Filter(rows[0].keys, NotTime)
  }

  /** The numeric values of `column`, one per row whose field converts to a
      number, in row order: `rows.map(r => Number(r[column])).filter(v => !isNaN(v))`.
      The row order is stated by `NumericValuesInRowOrder`. */
  function NumericValues(rows: seq<Row>, column: string): (r: seq<real>)
    ensures |r| == NumberedRows(rows, column) <= |rows|
    ensures r == [] <==> forall k :: 0 <= k < |rows| ==> column !in rows[k].numbers
    ensures forall k :: 0 <= k < |rows| && column in rows[k].numbers ==> rows[k].numbers[column] in r
    ensures forall j :: 0 <= j < |r| ==> NumberOfSomeRow(rows, column, r[j])
  {
    if rows == [] then []
    else
      var rest := NumericValues(rows[1..], column);
      forall j | 0 <= j < |rest| ensures NumberOfSomeRow(rows, column, rest[j]) {
        NumberOfSomeRowTail(rows, column, rest[j]);
      }
      assert forall k :: 1 <= k < |rows| ==> rows[k] == rows[1..][k - 1];
      (if column in rows[0].numbers then [rows[0].numbers[column]] else []) + rest
  }

  /** The numeric values are in row order, one per row that has one: the
      `j`-th value is the field of the `j`-th row whose field is numeric. */
  lemma {:induction false} NumericValuesInRowOrder(rows: seq<Row>, column: string)
    ensures |NumericValues(rows, column)| == |Filter(rows, HasNumber(column))|
    ensures forall j :: 0 <= j < |NumericValues(rows, column)| ==>
              NumericValues(rows, column)[j] == Filter(rows, HasNumber(column))[j].numbers[column]
  {
    if rows != [] {
      NumericValuesInRowOrder(rows[1..], column);
    }
  }

  /** The test of the `filter`: the row's `column` field is a number. */
  function HasNumber(column: string): Row -> bool
  {
    (row: Row) => column in row.numbers
  }

  /** `x` is the numeric `column` field of some row. */
  predicate NumberOfSomeRow(rows: seq<Row>, column: string, x: real)
  {
    exists k :: 0 <= k < |rows| && column in rows[k].numbers && x == rows[k].numbers[column]
  }

  /** A field of a later row is a field of the rows. */
  lemma NumberOfSomeRowTail(rows: seq<Row>, column: string, x: real)
    requires rows != [] && NumberOfSomeRow(rows[1..], column, x)
    ensures NumberOfSomeRow(rows, column, x)
  {
    var k :| 0 <= k < |rows[1..]| && column in rows[1..][k].numbers && x == rows[1..][k].numbers[column];
    assert rows[k + 1] == rows[1..][k];
  }

  /** The number of rows whose `column` field converts to a number. */
  function NumberedRows(rows: seq<Row>, column: string): (n: nat)
    ensures n <= |rows|
  {
    if rows == [] then 0
    else (if column in rows[0].numbers then 1 else 0) + NumberedRows(rows[1..], column)
  }
}
