/**
 * A row as `csv.DictReader` yields it: a map from column name to cell text. A column the
 * file does not have is absent from the map; `row.get(column)` then gives `None`, which
 * every caller treats like the empty string.
 */
module CsvRows {

  type Row = map<string, string>

  /** `row.get(column, "")`, and `row.get(column)` where `None` and `""` are both falsy. */
  function Get(row: Row, column: string): (v: string)
    ensures column !in row ==> v == ""
    ensures column in row ==> v == row[column]
  {
    if column in row then row[column] else ""
  }

  /**
   * `row.get(a) or row.get(b) or ...`: the first of the columns whose cell is non-empty, or
   * `""` when every one is missing or empty.
   */
  function FirstFilled(row: Row, columns: seq<string>): (v: string)
    ensures v != "" ==> exists i :: 0 <= i < |columns| && Get(row, columns[i]) == v
    ensures v == "" <==> forall i :: 0 <= i < |columns| ==> Get(row, columns[i]) == ""
  {
    if columns == [] then ""
    else if Get(row, columns[0]) != "" then Get(row, columns[0])
    else
      var v := FirstFilled(row, columns[1..]);
      assert forall i :: 1 <= i < |columns| ==> columns[i] == columns[1..][i - 1];
      v
  }

  /** An earlier filled column wins over every later one. */
  lemma {:induction false} FirstFilledPicksFirst(row: Row, columns: seq<string>, k: nat)
    requires k < |columns| && Get(row, columns[k]) != ""
    requires forall i :: 0 <= i < k ==> Get(row, columns[i]) == ""
    ensures FirstFilled(row, columns) == Get(row, columns[k])
  {
    if k > 0 {
      assert forall i :: 0 <= i < k - 1 ==> columns[1..][i] == columns[i + 1];
      FirstFilledPicksFirst(row, columns[1..], k - 1);
    }
  }
}
