/**
 * The processing steps of the upload handler, in their order: add the
 * `Department` column, write the per-department CSV files, aggregate for
 * the two charts, then derive the churn statements and the counts shown to
 * the user.
 */
module Pipeline {
  import opened Wrappers
  import opened Records
  import opened Grouping
  import opened Classifier
  import opened Partitioner
  import opened Aggregator
  import opened MonthlyAggregator
  import opened Churn

  /** The uploaded table, to which the handler adds a `Department` column in place. */
  class ComplaintData {
    var records: seq<Record>
    var departments: seq<Department>
    var labelled: bool

    /** Before labelling there is no `Department` column; after, one label per row. */
    ghost predicate Valid()
      reads this
    {
      if labelled then |departments| == |records| else departments == []
    }

    constructor (rs: seq<Record>)
      ensures Valid() && records == rs && !labelled
    {
      records := rs;
      departments := [];
      labelled := false;
    }

    /** `data['Department'] = data['complaint'].apply(classify_department)`. */
    method AddDepartmentColumn(rules: Rules)
      requires Valid()
      modifies this
      ensures Valid() && labelled && records == old(records)
      ensures forall i :: 0 <= i < |records| ==> departments[i] == Classify(records[i].complaint, rules)
    {
      departments := ClassifyAll(records, rules);
      labelled := true;
    }

    /** The labelled rows. */
    function Rows(): (rows: seq<Row>)
      reads this
      requires Valid() && labelled
      ensures |rows| == |records|
      ensures forall i :: 0 <= i < |rows| ==> rows[i] == Row(records[i], departments[i])
    {
      WithDepartments(records, departments)
    }
  }

  /** Pairs every record with its label. */
  function WithDepartments(records: seq<Record>, labels: seq<Department>): (rows: seq<Row>)
    requires |labels| == |records|
    ensures |rows| == |records|
    ensures forall i :: 0 <= i < |rows| ==> rows[i] == Row(records[i], labels[i])
  {
    seq(|records|, i requires 0 <= i < |records| => Row(records[i], labels[i]))
  }

  /** The department of every record, row by row. */
  function ClassifyAll(records: seq<Record>, rules: Rules): (labels: seq<Department>)
    ensures |labels| == |records|
    ensures forall i :: 0 <= i < |records| ==> labels[i] == Classify(records[i].complaint, rules)
  {
    if records == [] then [] else [Classify(records[0].complaint, rules)] + ClassifyAll(records[1..], rules)
  }

  /** What the result page is given: the department counts and the churn statements. */
  datatype Report = Report(deptCounts: seq<Entry>, churnReasons: seq<string>)

  /** The data behind the "complaints over time" chart. */
  type TimeChart = seq<Bucket>

  /** Counts with their labels widened to the integer counts the churn heuristic accepts. */
  function AsIntCounts(entries: seq<Entry>): (r: seq<(string, int)>)
    ensures |r| == |entries|
    ensures forall i :: 0 <= i < |entries| ==> r[i] == (entries[i].0, entries[i].1 as int)
  {
    seq(|entries|, i requires 0 <= i < |entries| => (entries[i].0, entries[i].1 as int))
  }

  /** What the result page, the charts and the CSV files receive from one labelled table. */
  ghost predicate Produced(rows: seq<Row>, files: seq<CsvFile>, departmentChart: seq<Entry>,
                           timeChart: Result<TimeChart, DateError>, report: Result<Report, DateError>)
  {
    && |files| == |Partition(rows)|
    && (forall i :: 0 <= i < |files| ==>
          files[i].path == CsvPath(Partition(rows)[i].department) && files[i].rows == Partition(rows)[i].rows)
    && departmentChart == ValueCounts(Departments(rows))
    && timeChart == MonthlyCounts(ComplaintDates(rows))
    && (report.Failure? <==> timeChart.Failure?)
    && (report.Failure? ==> report.error == timeChart.error)
    && (report.Success? ==>
          report.value.deptCounts == departmentChart
          && |report.value.churnReasons| == |departmentChart|
          && forall i :: 0 <= i < |departmentChart| ==>
               report.value.churnReasons[i] == Statement(departmentChart[i].0, departmentChart[i].1))
  }

  /**
   * Steps 2 to 4 of `upload_file` on the labelled table. The CSV files and
   * the department chart are produced before the dates are examined; an
   * impossible date then fails the run, so no time chart and no report are
   * produced.
   */
  method ProcessLabelled(rows: seq<Row>)
    returns (files: seq<CsvFile>, departmentChart: seq<Entry>, timeChart: Result<TimeChart, DateError>,
             report: Result<Report, DateError>)
    ensures Produced(rows, files, departmentChart, timeChart, report)
  {
    files := SaveDepartmentData(rows);
    departmentChart := ValueCounts(Departments(rows));
    timeChart := MonthlyCounts(ComplaintDates(rows));
    if timeChart.Failure? {
      report := Failure(timeChart.error);
      return;
    }
    var reasons := ChurnPredictionReasons(AsIntCounts(ValueCounts(Departments(rows))));
    var deptCounts := ValueCounts(Departments(rows));
    report := Success(Report(deptCounts, reasons));
  }

  /** The processing part of `upload_file` for an already-read table. */
  method ProcessUpload(records: seq<Record>)
    returns (rows: seq<Row>, files: seq<CsvFile>, departmentChart: seq<Entry>,
             timeChart: Result<TimeChart, DateError>, report: Result<Report, DateError>)
    ensures rows == LabelRows(records)
    ensures Produced(rows, files, departmentChart, timeChart, report)
  {
    var data := new ComplaintData(records);
    data.AddDepartmentColumn(DefaultRules);
    rows := data.Rows();
    files, departmentChart, timeChart, report := ProcessLabelled(rows);
  }

  /** The records labelled with the default keyword table. */
  function LabelRows(records: seq<Record>): (rows: seq<Row>)
    ensures |rows| == |records|
    ensures forall i :: 0 <= i < |records| ==>
              rows[i] == Row(records[i], Classify(records[i].complaint, DefaultRules))
  {
    WithDepartments(records, ClassifyAll(records, DefaultRules))
  }

  /** An empty upload yields no files, no counts and no statements. */
  lemma EmptyUpload()
    ensures Partition(LabelRows([])) == []
    ensures ValueCounts(Departments(LabelRows([]))) == []
    ensures MonthlyCounts(ComplaintDates(LabelRows([]))) == Success([])
  {
  }
}
