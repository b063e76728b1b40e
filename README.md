# Complaint analysis pipeline: a verified model

This project models the processing pipeline of a Flask application that
analyses an uploaded CSV of customer complaints. The pipeline has four
stages, all in `app.py`:

1. **Keyword classifier** (`classify_department`). The complaint text is
   lower-cased. Then an ordered table of (department, keyword list) pairs is
   searched, department by department and keyword by keyword. The first
   keyword that occurs as a substring decides the department. If nothing
   matches, the result is `Others`.
2. **Partitioner** (`save_department_data`). For each distinct `Department`
   value, in order of first appearance, it selects that department's rows in
   their original order and writes them to `static/<department>_complaints.csv`.
3. **Aggregators** (`value_counts()` and the monthly `groupby`). The first
   counts rows per department, largest count first. The second counts rows
   per calendar month, in chronological order.
4. **Churn heuristic** (`churn_prediction_reasons`). Each (department, count)
   entry gets exactly one fixed sentence. A department gets its dedicated
   warning only if it is one of the four named departments and its count is
   above five.

Modules, one per stage, plus shared data:

- `Text` (text.dfy): ASCII lower-casing, and the `in` substring test as a
  decision procedure proved against its logical definition.
- `Classifier` (classifier.dfy): the default keyword table as an ordered
  `seq`. The classifier is a recursive function, `Classify`, plus the
  nested-loop method `ClassifyDepartment`, which is proved equal to it.
- `Records` (records.dfy): rows, reduced to the complaint text, the parsed
  date, the other columns, and the `Department` label.
- `Grouping` (grouping.dfy): counting, `unique()` in first-appearance order,
  and sums of counts.
- `Partitioner` (partitioner.dfy): the grouping, the CSV path, and the
  looping method `SaveDepartmentData`.
- `Aggregator` (aggregator.dfy): `value_counts()`, as first-appearance
  counts followed by a stable sort with the largest count first.
- `MonthlyAggregator` (monthly.dfy): date validity, month buckets kept
  chronologically, and the fail-fast monthly counts.
- `Churn` (churn.dfy): the sentences, and the looping method
  `ChurnPredictionReasons`.
- `Pipeline` (pipeline.dfy): a `ComplaintData` class that gains its
  `Department` column in place. `ProcessUpload` labels the rows, and
  `ProcessLabelled` runs the remaining stages in the handler's order.

Two behaviours of the code shape the model:

- The CSV files (app.py:51) and the department bar chart (app.py:93-102)
  are produced before the dates are parsed (app.py:105). `ProcessLabelled`
  therefore returns them even when the time chart and the report fail.
- `value_counts()` sorts by count, largest first (app.py:60, 93, 120).
  Among equal counts the model keeps first-appearance order.

## Model

| member | source | states |
|---|---|---|
| Text.LowerChar | app.py:77 | the result is never an upper-case ASCII letter; upper-case letters map to their lower-case partner and every other character is kept |
| Text.Lower | app.py:77 | `Lower` keeps the length, lower-cases position by position, and leaves no upper-case letter |
| Text.LowerIdempotent | app.py:77 | lower-casing an already lower-cased text changes nothing |
| Text.LowerOfLowerCase | app.py:80 | a text with no upper-case letter is unchanged by lower-casing |
| Text.Contains | app.py:80 | the left-to-right search answers yes exactly when the keyword occurs at some position of the text (`keyword in complaint`) |
| Text.ContainsAt | app.py:80 | an occurrence at any one position is enough for the search to answer yes |
| Text.ContainsLowered | app.py:80 | a lower-case keyword found in the raw text is also found in the lower-cased text |
| Text.EmptyOccursEverywhere | app.py:80 | an empty keyword matches every text, as in Python |
| Classifier.LabelsDistinct | app.py:38-44 | the five department labels are pairwise different |
| Classifier.DefaultRulesShape | app.py:38-44 | the default table (`DefaultRules`, copied from the handler) lists the five departments in the handler's order, and every keyword in it is already lower case, so `keyword.lower()` leaves it unchanged |
| Classifier.MatchesKeywords | app.py:79-81 | one department's keyword loop succeeds exactly when one of its keywords, lower-cased, occurs in the text |
| Classifier.FirstMatch | app.py:78-81 | gives the position of a department with a matching keyword such that no earlier department matches, or the table length if none matches |
| Classifier.Classify | app.py:76-82 | the result is `Others` or one of the table's labels |
| Classifier.ClassifyFirstMatchWins | app.py:78-81 | a matching department with no matching department before it is the result: first match wins, not best match |
| Classifier.ClassifyCharacterised | app.py:76-82 | no matching keyword gives `Others`; any other result is the first matching department in table order |
| Classifier.ClassifyIgnoresCase | app.py:77 | classifying a text and its lower-cased form gives the same department |
| Classifier.ClassifyDefaultLabel | app.py:38-44 | with the default table the result is always one of the five labels |
| Classifier.TrailingOthersRuleIsDead | app.py:78-82 | a final table entry labelled `Others` can be removed without changing any result |
| Classifier.OthersKeywordsUnreachable | app.py:43 | the `Others` keyword list of the default table never changes a result |
| Classifier.ScenarioHelpWithSupport | app.py:39 | "I need help with support" is classified as Customer Support |
| Classifier.ScenarioGeneralQueryAboutBilling | app.py:39-41 | "general query about billing" is Customer Support, because "query" is found before Billing is tried |
| Classifier.ClassifyDepartment | app.py:76-82 | the nested loops with early return compute exactly `Classify` |
| Records.Departments | app.py:46 | the `Department` column holds each row's label, one per row |
| Records.ComplaintDates | app.py:105 | the `date_of_complaint` column holds each row's date, one per row |
| Grouping.Count | app.py:60 | a count is zero exactly when the value does not occur, and never exceeds the length |
| Grouping.FirstIndex | app.py:86 | gives the position of the first occurrence: the value is there and not before |
| Grouping.FirstIndexAppend | app.py:86 | appending a row does not move a label's first occurrence |
| Grouping.Distinct | app.py:86 | `unique()` lists each value that occurs exactly once and nothing else |
| Grouping.DistinctInFirstAppearanceOrder | app.py:86 | `unique()` lists values in the order of their first occurrence |
| Grouping.SumCountsCons | app.py:60 | one more row raises the summed counts by one exactly when its value is listed |
| Grouping.SumCountsCovers | app.py:60 | summing the counts over all distinct values gives the number of rows |
| Grouping.SumCountsEmpty | app.py:60 | an empty table has all counts zero |
| Partitioner.RowsOf | app.py:87 | the selection holds only rows of the requested department |
| Partitioner.RowsOfSize | app.py:87 | the selection has as many rows as the label occurs in the `Department` column |
| Partitioner.RowsOfMultiplicity | app.py:87 | a row is selected as often as it occurs if it has the label, and never otherwise |
| Partitioner.RowsOfAppend | app.py:87 | the selection distributes over concatenation, so relative order is kept |
| Partitioner.RowsOfSingle | app.py:87 | a single row is kept exactly when it carries the label |
| Partitioner.TablesFor | app.py:86-87 | one table per listed department, labelled in the listed order |
| Partitioner.Partition | app.py:86-87 | one table per value of `unique()`, in first-appearance order; `TablesForContents`, `PartitionLossless` and `PartitionLabels` state each table's rows and that no row is lost |
| Partitioner.TablesForContents | app.py:86-87 | each listed table holds exactly its department's selection |
| Partitioner.FlattenMultiplicity | app.py:86-87 | across the tables a row occurs as often as in the input when its department is listed, and never otherwise |
| Partitioner.PartitionLossless | app.py:86-87 | the tables together hold the input rows with the same multiplicities: nothing is lost or duplicated |
| Partitioner.TableSizesSum | app.py:86-87 | the table sizes add up to the summed label counts |
| Partitioner.PartitionSizesSum | app.py:86-87 | the table sizes add up to the number of rows |
| Partitioner.PartitionLabels | app.py:86 | one table per distinct label, in first-appearance order, with no label twice and no label that no row carries |
| Partitioner.PartitionTablesNonEmpty | app.py:86-87 | every table is non-empty, is as large as its department's count, and holds only that department's rows |
| Partitioner.RowInTableIff | app.py:87 | a row is in a table exactly when the table is its department's |
| Partitioner.CsvPathShape | app.py:88 | the path is `static/`, then the department, then `_complaints.csv` |
| Partitioner.CsvPath | app.py:88 | the path is as long as `static/`, the label and `_complaints.csv` together; `CsvPathShape` and `CsvPathInjective` state its shape and that distinct departments get distinct files |
| Partitioner.CsvPathInjective | app.py:88 | different departments get different files, so no table overwrites another |
| Partitioner.SaveDepartmentData | app.py:85-88 | the loop writes one file per partition table, in partition order, each at its department's path with that table's rows |
| Aggregator.KeysOf | app.py:60 | the labels of the count entries, position by position |
| Aggregator.CountsFor | app.py:60 | each listed label is paired with its row count; the total is the summed counts |
| Aggregator.CountsInFirstAppearanceOrder | app.py:60 | the labels are the distinct departments in first-appearance order, each paired with its row count |
| Aggregator.InsertByCount | app.py:93 | insertion keeps the counts descending and adds exactly the one entry |
| Aggregator.InsertByCountKeysAndTotal | app.py:93 | insertion adds exactly the entry's label and count |
| Aggregator.SortByCount | app.py:93 | the result is in descending count order and is a permutation of the input |
| Aggregator.SortByCountKeysAndTotal | app.py:93 | sorting keeps the labels and the total |
| Aggregator.ValueCounts | app.py:93 | `value_counts()`: the counts come largest first; `ValueCountsKeys`, `ValueCountsEntries` and `ValueCountsTotal` state the labels, the exact counts and the total |
| Aggregator.NoDuplicatesMultiplicity | app.py:60 | in a list with no repeated value, every value occurs at most once |
| Aggregator.PermutationKeepsNoDuplicates | app.py:60 | a rearrangement of a list with no repeats has no repeats |
| Aggregator.ValueCountsKeys | app.py:60 | `value_counts()` lists every label present exactly once, largest count first |
| Aggregator.ValueCountsEntries | app.py:120 | every entry is a label that occurs, paired with its row count, which is at least 1 |
| Aggregator.ValueCountsTotal | app.py:93 | the counts add up to the number of rows |
| Aggregator.ValueCountsEmpty | app.py:60 | no rows give no counts |
| MonthlyAggregator.DaysInMonth | app.py:105 | months have 28 to 31 days, and 29 days only for February of a leap year |
| MonthlyAggregator.ValidDateCalendar | app.py:105 | which triples `pd.to_datetime` accepts: February 29 only in Gregorian leap years (2000 and 2024 yes, 1900 and 2023 no), no April 31, no month 0 or 13, no day 0 |
| MonthlyAggregator.MonthOf | app.py:106 | `to_period('M')` keeps the year and the month and drops the day; `MonthBucketsIgnoreDay` shows the day never changes the buckets |
| MonthlyAggregator.CountMonth | app.py:106 | a month's count never exceeds the number of dates |
| MonthlyAggregator.AddToBuckets | app.py:106 | adding a date keeps the buckets strictly chronological |
| MonthlyAggregator.CountInBeforeFirst | app.py:106 | a month earlier than the first bucket has no bucket |
| MonthlyAggregator.AddToBucketsCount | app.py:106 | adding a date raises the count of its month by one and changes no other month |
| MonthlyAggregator.AddToBucketsTotal | app.py:106 | adding a date raises the total by one |
| MonthlyAggregator.AddToBucketsKeyOrigin | app.py:106 | every bucket after adding is the date's month or a bucket that was already there |
| MonthlyAggregator.MonthBuckets | app.py:106 | the buckets come out in chronological order, with no month twice |
| MonthlyAggregator.CountInChronological | app.py:106 | in chronological buckets, looking up a bucket's month gives that bucket's count |
| MonthlyAggregator.MonthBucketsCount | app.py:106 | every month's bucket count is the number of dates in that month |
| MonthlyAggregator.MonthBucketsTotal | app.py:106 | the bucket counts add up to the number of dates |
| MonthlyAggregator.MonthBucketsCorrect | app.py:105-106 | the buckets are chronological, every bucket's count is its month's number of dates and at least 1, every date's month has a bucket, and the counts add up to the number of rows |
| MonthlyAggregator.CountMonthPositive | app.py:106 | every date counts toward its own month |
| MonthlyAggregator.BucketsNonEmpty | app.py:106 | no bucket is empty |
| MonthlyAggregator.BucketNeedsDate | app.py:106 | every bucket's month is the month of some date |
| MonthlyAggregator.MonthBucketsIgnoreDay | app.py:106 | dates that agree in year and month give the same buckets: the day is ignored |
| MonthlyAggregator.FirstInvalid | app.py:105 | gives the first row whose date is impossible, or nothing when every date is valid |
| MonthlyAggregator.MonthlyCounts | app.py:105-106 | a failure names a row whose date is impossible, with every earlier date valid; a success means every date is valid and gives the chronological month buckets |
| MonthlyAggregator.MonthlyCountsFailsIff | app.py:105-106 | the aggregation fails exactly when some date is impossible, and names such a row; otherwise it gives the buckets |
| MonthlyAggregator.ScenarioInvalidDate | app.py:105 | a date of month 13, day 40 after valid dates fails the aggregation at that row |
| Churn.Warning | app.py:123-130 | exactly the four named departments have a dedicated sentence, and it differs from the generic one |
| Churn.Statement | app.py:123-132 | every statement is the department's own warning or the generic sentence, after the department and ": "; `StatementWarnsIff` says which one is given |
| Churn.StatementNamesDepartment | app.py:122-132 | every statement begins with its department followed by ": " |
| Churn.StatementWarnsIff | app.py:123-132 | the dedicated warning is given exactly when the department is one of the four and the count is above five; otherwise the generic sentence is given |
| Churn.NoRiskAtThresholdOrForOthers | app.py:131-132 | a count of at most five, or the `Others` department at any count, gives the generic sentence |
| Churn.ChurnPredictionReasons | app.py:118-134 | exactly one statement per entry, in entry order, each being that entry's statement |
| Churn.ScenarioTechnicalAndOthers | app.py:125-132 | {Technical Issues: 7, Others: 2} gives the technical warning and then "Others: No major churn risk." |
| Pipeline.ComplaintData.constructor | app.py:35 | a freshly read table has its rows and no `Department` column |
| Pipeline.ComplaintData.AddDepartmentColumn | app.py:46-48 | the rows stay the same and each row gains the classifier's label for its complaint |
| Pipeline.ComplaintData.Rows | app.py:46 | the labelled view pairs each row with its label |
| Pipeline.WithDepartments | app.py:46 | row i is paired with label i |
| Pipeline.ClassifyAll | app.py:46-48 | label i is the classification of complaint i |
| Pipeline.LabelRows | app.py:46-48 | each record is labelled with its default-table classification |
| Pipeline.AsIntCounts | app.py:120-122 | the count entries are passed on unchanged, in order |
| Pipeline.ProcessLabelled | app.py:51-60 | the files follow the partition and the department chart is the value counts, even on failure; the report fails exactly when the time chart fails, with the same error, and otherwise carries the value counts and one churn statement per entry |
| Pipeline.ProcessUpload | app.py:35-67 | the rows are the records labelled with the default table, and the outputs are those of the labelled processing for exactly those rows |
| Pipeline.EmptyUpload | app.py:51-60 | an empty upload gives no partition tables, no department counts and no monthly buckets |

## Left out

- The Flask routes, upload checks, `file.save`, template rendering and
  static file serving (app.py:16-33, 62-69, 137-143) are HTTP and
  file-system plumbing. `ProcessUpload` starts from the rows once they
  have been read.
- The `static` directory bootstrap (app.py:12-13) and the actual writes of
  the CSV files (app.py:88) and chart images (app.py:95-115) are file
  I/O. The model returns each file's path and rows, and the two charts'
  data.
- `pd.read_csv` (app.py:35) is a foreign parser. Rows come in as records
  holding the complaint text, an already-parsed date and the remaining
  columns as strings.
- `pd.to_datetime` (app.py:105) is a foreign parser. Dates come in as
  (year, month, day) triples. Only the check that a triple is a real
  Gregorian date is modelled, as the failure path. Pandas' supported year
  range is not modelled.
- Missing dates: an empty `date_of_complaint` cell becomes NaT under
  `pd.to_datetime` without an error (app.py:105), and the monthly
  `groupby(...).size()` drops NaT keys (app.py:106). The source thus leaves
  such rows out of the monthly counts without failing. The model assumes
  every row has a date, so `MonthBucketsTotal` and `MonthBucketsCorrect`
  (the counts add up to the number of rows) describe uploads without
  missing dates.
- `str(complaint)` coercion of missing values such as NaN to "nan"
  (app.py:77) is not modelled: complaint texts are strings.
- Text.Lower: only ASCII `A`-`Z` are lower-cased. Python's `str.lower()`
  also maps non-ASCII letters, which this model does not capture.
- Aggregator.ValueCounts: among equal counts, entries keep first-appearance
  order. The tie order of pandas' `value_counts()` is not modelled.
  `ChurnPredictionReasons` accepts entries in any order.
- Churn.ScenarioTechnicalAndOthers: the expected sentences are stated as
  the department, then ": ", then the fixed sentence. They are not stated
  as one literal, because the verifier cannot compare long string
  literals character by character.
- Churn.ChurnPredictionReasons: it takes the (department, count) entries
  directly. The source computes `value_counts()` itself (app.py:120).
  `ProcessLabelled` does that step.
- The unused scikit-learn imports (app.py:5-7) are not modelled.
