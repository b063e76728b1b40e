/**
 * The rows of the uploaded complaint table. A row as read carries the
 * complaint text, its already-parsed complaint date and the columns the
 * pipeline passes through untouched; once classified it also carries its
 * `Department` label.
 */
module Records {

  /** A calendar date as the date parser would deliver it. */
  datatype Date = Date(year: int, month: int, day: int)

  /** One input row: the `complaint` and `date_of_complaint` columns and the rest. */
  datatype Record = Record(complaint: string, dateOfComplaint: Date, otherColumns: seq<string>)

  /** A row of the table after the `Department` column was added. */
  datatype Row = Row(record: Record, department: string)

  /** The `Department` column of a labelled table. */
  function Departments(rows: seq<Row>): (labels: seq<string>)
    ensures |labels| == |rows|
    ensures forall i :: 0 <= i < |rows| ==> labels[i] == rows[i].department
  {
    if rows == [] then [] else [rows[0].department] + Departments(rows[1..])
  }

  /** The `date_of_complaint` column of a labelled table. */
  function ComplaintDates(rows: seq<Row>): (dates: seq<Date>)
    ensures |dates| == |rows|
    ensures forall i :: 0 <= i < |rows| ==> dates[i] == rows[i].record.dateOfComplaint
  {
    if rows == [] then [] else [rows[0].record.dateOfComplaint] + ComplaintDates(rows[1..])
  }
}
