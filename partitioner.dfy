/**
 * `save_department_data`: one table per distinct department, in order of
 * first appearance, each holding exactly the rows of that department in
 * their original order, persisted as `static/<department>_complaints.csv`.
 */
module Partitioner {
  import opened Records
  import opened Grouping

  /** The rows of one department. */
  datatype Table = Table(department: string, rows: seq<Row>)

  /** A CSV file the partitioner writes: where, and which rows. */
  datatype CsvFile = CsvFile(path: string, rows: seq<Row>)

  /** `data[data['Department'] == department]`: the rows with that label, in table order. */
  function RowsOf(rows: seq<Row>, department: string): (t: seq<Row>)
    ensures |t| <= |rows|
    ensures forall i :: 0 <= i < |t| ==> t[i].department == department
  {
    if rows == [] then
      []
    else
      var rest := RowsOf(rows[1..], department);
      if rows[0].department == department then [rows[0]] + rest else rest
  }

  /** As many rows are selected as the `Department` column holds the label. */
  lemma {:induction false} RowsOfSize(rows: seq<Row>, department: string)
    ensures |RowsOf(rows, department)| == Count(Departments(rows), department)
  {
    if rows != [] {
      assert Departments(rows)[1..] == Departments(rows[1..]);
      RowsOfSize(rows[1..], department);
    }
  }

  /** A row is selected as often as it occurs, if it carries the label, and never otherwise. */
  lemma {:induction false} RowsOfMultiplicity(rows: seq<Row>, department: string, r: Row)
    ensures multiset(RowsOf(rows, department))[r]
            == if r.department == department then multiset(rows)[r] else 0
  {
    if rows != [] {
      assert rows == [rows[0]] + rows[1..];
      RowsOfMultiplicity(rows[1..], department, r);
    }
  }

  /** The selection keeps relative order: it distributes over concatenation. */
  lemma {:induction false} RowsOfAppend(a: seq<Row>, b: seq<Row>, department: string)
    ensures RowsOf(a + b, department) == RowsOf(a, department) + RowsOf(b, department)
  {
    if a == [] {
      assert a + b == b;
    } else {
      assert (a + b)[1..] == a[1..] + b;
      assert (a + b)[0] == a[0];
      RowsOfAppend(a[1..], b, department);
    }
  }

  /** The one-row case: a row is kept exactly when it carries the label. */
  lemma RowsOfSingle(r: Row, department: string)
    ensures RowsOf([r], department) == if r.department == department then [r] else []
  {
    assert [r][1..] == [];
  }

  /** One table per listed department, in the order listed. */
  function TablesFor(rows: seq<Row>, departments: seq<string>): (ts: seq<Table>)
    ensures |ts| == |departments|
    ensures forall i :: 0 <= i < |ts| ==> ts[i].department == departments[i]
  {
    if departments == [] then []
    else [Table(departments[0], RowsOf(rows, departments[0]))] + TablesFor(rows, departments[1..])
  }

  /** The in-memory grouping: one table for each value of `Department.unique()`. */
  function Partition(rows: seq<Row>): (ts: seq<Table>)
    ensures |ts| == |Distinct(Departments(rows))|
    ensures forall i :: 0 <= i < |ts| ==> ts[i].department == Distinct(Departments(rows))[i]
  {
    TablesFor(rows, Distinct(Departments(rows)))
  }

  /** All rows of a list of tables, table after table. */
  function Flatten(ts: seq<Table>): seq<Row> {
    if ts == [] then [] else ts[0].rows + Flatten(ts[1..])
  }

  /** The path `save_department_data` writes a department's table to. */
  function CsvPath(department: string): (p: string)
    ensures |p| == |"static/"| + |department| + |"_complaints.csv"|
  {
    "static/" + department + "_complaints.csv"
  }

  /** The path is the directory, then the department label, then the fixed suffix. */
  lemma CsvPathShape(department: string)
    ensures |CsvPath(department)| == |department| + |"static/"| + |"_complaints.csv"|
    ensures CsvPath(department)[..|"static/"|] == "static/"
    ensures CsvPath(department)[|CsvPath(department)| - |"_complaints.csv"|..] == "_complaints.csv"
    ensures CsvPath(department)[|"static/"|..|CsvPath(department)| - |"_complaints.csv"|] == department
  {
  }

  /** Distinct departments are written to distinct files: no table overwrites another. */
  lemma CsvPathInjective(d1: string, d2: string)
    requires CsvPath(d1) == CsvPath(d2)
    ensures d1 == d2
  {
    CsvPathShape(d1);
    CsvPathShape(d2);
  }

  /** Each listed table holds precisely the rows of its department. */
  lemma {:induction false} TablesForContents(rows: seq<Row>, departments: seq<string>, i: nat)
    requires i < |departments|
    ensures TablesFor(rows, departments)[i].rows == RowsOf(rows, departments[i])
  {
    if i > 0 {
      TablesForContents(rows, departments[1..], i - 1);
    }
  }

  /** How often a row occurs among the listed tables. */
  lemma {:induction false} FlattenMultiplicity(rows: seq<Row>, departments: seq<string>, r: Row)
    requires NoDuplicates(departments)
    ensures multiset(Flatten(TablesFor(rows, departments)))[r]
            == if r.department in departments then multiset(rows)[r] else 0
  {
    if departments != [] {
      var ts := TablesFor(rows, departments);
      assert ts[1..] == TablesFor(rows, departments[1..]);
      FlattenMultiplicity(rows, departments[1..], r);
      RowsOfMultiplicity(rows, departments[0], r);
      assert r.department == departments[0] ==> r.department !in departments[1..];
    }
  }

  /**
   * The partition is lossless and duplicates nothing: together the tables
   * hold the input rows, each exactly as often as in the input.
   */
  lemma PartitionLossless(rows: seq<Row>)
    ensures multiset(Flatten(Partition(rows))) == multiset(rows)
    ensures |Flatten(Partition(rows))| == |rows|
  {
    var labels := Departments(rows);
    var u := Distinct(labels);
    forall r
      ensures multiset(Flatten(Partition(rows)))[r] == multiset(rows)[r]
    {
      FlattenMultiplicity(rows, u, r);
      if r in rows {
        var k :| 0 <= k < |rows| && rows[k] == r;
        assert labels[k] in u;
      }
    }
    assert multiset(Flatten(Partition(rows))) == multiset(rows);
    assert |multiset(Flatten(Partition(rows)))| == |multiset(rows)|;
  }

  /** The table sizes add up to the number of rows. */
  lemma {:induction false} TableSizesSum(rows: seq<Row>, departments: seq<string>)
    ensures |Flatten(TablesFor(rows, departments))| == SumCounts(Departments(rows), departments)
  {
    if departments != [] {
      var ts := TablesFor(rows, departments);
      assert ts[1..] == TablesFor(rows, departments[1..]);
      TableSizesSum(rows, departments[1..]);
      RowsOfSize(rows, departments[0]);
    }
  }

  /**
   * One table per distinct label, labels in order of first appearance,
   * no label twice, and no table for a label that no row carries.
   */
  lemma PartitionLabels(rows: seq<Row>)
    ensures NoDuplicates(seq(|Partition(rows)|, i requires 0 <= i < |Partition(rows)| => Partition(rows)[i].department))
    ensures forall k :: 0 <= k < |rows| ==>
              exists i :: 0 <= i < |Partition(rows)| && Partition(rows)[i].department == rows[k].department
    ensures forall i :: 0 <= i < |Partition(rows)| ==> Partition(rows)[i].department in Departments(rows)
    ensures forall i, j :: 0 <= i < j < |Partition(rows)| ==>
              FirstIndex(Departments(rows), Partition(rows)[i].department)
                < FirstIndex(Departments(rows), Partition(rows)[j].department)
  {
    var labels := Departments(rows);
    var p := Partition(rows);
    var u := Distinct(labels);
    forall k | 0 <= k < |rows|
      ensures exists i :: 0 <= i < |p| && p[i].department == rows[k].department
    {
      assert labels[k] in u;
      var i :| 0 <= i < |u| && u[i] == labels[k];
      assert p[i].department == rows[k].department;
    }
    forall i, j | 0 <= i < j < |p|
      ensures FirstIndex(labels, p[i].department) < FirstIndex(labels, p[j].department)
    {
      DistinctInFirstAppearanceOrder(labels, i, j);
    }
  }

  /**
   * Every table is non-empty, holds as many rows as its department is
   * counted, and holds only rows of its own department.
   */
  lemma PartitionTablesNonEmpty(rows: seq<Row>, i: nat)
    requires i < |Partition(rows)|
    ensures |Partition(rows)[i].rows| == Count(Departments(rows), Partition(rows)[i].department) >= 1
    ensures forall k :: 0 <= k < |Partition(rows)[i].rows| ==>
              Partition(rows)[i].rows[k].department == Partition(rows)[i].department
  {
    var labels := Departments(rows);
    var u := Distinct(labels);
    TablesForContents(rows, u, i);
    RowsOfSize(rows, u[i]);
  }

  /** A row lands in a table exactly when the table is its department's. */
  lemma RowInTableIff(rows: seq<Row>, k: nat, i: nat)
    requires k < |rows| && i < |Partition(rows)|
    ensures rows[k] in Partition(rows)[i].rows <==> Partition(rows)[i].department == rows[k].department
  {
    var u := Distinct(Departments(rows));
    TablesForContents(rows, u, i);
    var t := Partition(rows)[i].rows;
    RowsOfMultiplicity(rows, u[i], rows[k]);
    assert rows[k] in t <==> multiset(t)[rows[k]] > 0;
  }

  /** The partition's tables hold as many rows as the input. */
  lemma PartitionSizesSum(rows: seq<Row>)
    ensures |Flatten(Partition(rows))| == |rows|
    ensures SumCounts(Departments(rows), Distinct(Departments(rows))) == |rows|
  {
    var labels := Departments(rows);
    TableSizesSum(rows, Distinct(labels));
    SumCountsCovers(labels, Distinct(labels));
  }

  /**
   * `save_department_data` as written: a loop over `Department.unique()`
   * that selects each department's rows and writes them to its CSV path.
   */
  method SaveDepartmentData(rows: seq<Row>) returns (files: seq<CsvFile>)
    ensures |files| == |Partition(rows)|
    ensures forall i :: 0 <= i < |files| ==>
              files[i] == CsvFile(CsvPath(Partition(rows)[i].department), Partition(rows)[i].rows)
  {
    var departments := Distinct(Departments(rows));
    ghost var tables := Partition(rows);
    assert tables == TablesFor(rows, departments);
    files := [];
    for i := 0 to |departments|
      invariant |files| == i
      invariant forall j :: 0 <= j < i ==>
                  files[j] == CsvFile(CsvPath(tables[j].department), tables[j].rows)
    {
      var department := departments[i];
      var deptData := RowsOf(rows, department);
      TablesForContents(rows, departments, i);
      files := files + [CsvFile(CsvPath(department), deptData)];
    }
  }
}
