/**
  The benchmark ratio aggregator. For one operation (add, lookup or remove)
  it loads the per-size timings of three data structures (list, tree, map),
  divides them pairwise (tree/list, list/map, tree/map) and assembles the
  combined report: a header and one row per size, in ascending order.

  Files are given as rows that are already split into fields; a row whose
  size field is a number is a `Sample`, any other row (the header line, a
  blank line) is `Text`. A row with no fields at all is `Text` too: its
  size field `rows[0]` does not exist, so it cannot be read either.
 */
module Ratio {
  import opened SortedSet

  datatype Option<T> = None | Some(value: T)

  /** The exceptions the script raises while reading its inputs and writing
      the header, by cause. */
  datatype Error =
    | EmptyFile           // the header line is missing: `next(reader)` has nothing to return
    | MalformedRow        // a data row whose size field is missing or not an integer
    | UnknownOperation    // the operation is none of the three, so the column was never chosen
    | ShortRow            // a data row with too few fields for the chosen column
    | EmptyOperationName  // the header cannot capitalise the first letter of ""

  datatype Result<T> = Ok(value: T) | Err(error: Error)

  // ---------------------------------------------------------------------
  // Operation dispatch

  datatype Op = Add | Lookup | Remove

  /** The name under which the script is asked for an operation. */
  function Name(op: Op): string
  {
    match op
    case Add => "add"
    case Lookup => "lookup"
    case Remove => "remove"
  }

  /** The operation a name selects; any other name selects none. */
  function ParseOp(name: string): (r: Option<Op>)
    ensures r.Some? ==> Name(r.value) == name
    ensures r.None? ==> forall op: Op :: Name(op) != name
  {
    if name == "add" then Some(Add)
    else if name == "lookup" then Some(Lookup)
    else if name == "remove" then Some(Remove)
    else None
  }

  /** The field of a data row that holds an operation's timing
      (field 0 is the size). */
  function Column(op: Op): (col: nat)
    ensures 1 <= col <= 3
  {
    match op
    case Add => 1
    case Lookup => 2
    case Remove => 3
  }

  /** Dispatch: each of the three names selects its own column, and a name
      is recognised exactly when it is one of the three. */
  lemma Dispatch(name: string)
    ensures ParseOp(name).Some? <==> name in {"add", "lookup", "remove"}
    ensures name == "add" ==> Column(ParseOp(name).value) == 1
    ensures name == "lookup" ==> Column(ParseOp(name).value) == 2
    ensures name == "remove" ==> Column(ParseOp(name).value) == 3
    ensures forall a: Op, b: Op :: Column(a) == Column(b) ==> a == b
  {
  }

  // ---------------------------------------------------------------------
  // Loading a dataset

  datatype Record =
    | Text(tokens: seq<string>)
    | Sample(size: int, values: seq<real>)  // `values` are the fields after the size

  /** The timing one data row contributes, or the error reading it raises.
      The size is converted before the column is looked up, so a
      non-numeric size wins over an unknown operation, which wins over a
      short row. */
  function Measurement(row: Record, op: Option<Op>): (r: Result<real>)
    ensures r.Ok? <==> row.Sample? && op.Some? && Column(op.value) <= |row.values|
    ensures r.Ok? ==> r.value == row.values[Column(op.value) - 1]
    ensures row.Text? ==> r == Err(MalformedRow)
    ensures row.Sample? && op.None? ==> r == Err(UnknownOperation)
    ensures row.Sample? && op.Some? && Column(op.value) > |row.values| ==> r == Err(ShortRow)
  {
    match row
    case Text(_) => Err(MalformedRow)
    case Sample(_, values) =>
      match op
      case None => Err(UnknownOperation)
      case Some(o) =>
        if Column(o) <= |values| then Ok(values[Column(o) - 1]) else Err(ShortRow)
  }

  /** The dictionary built from the data rows, in file order: a later row
      with the same size replaces an earlier one, and the first row that
      cannot be read aborts the load. */
  function Collect(rows: seq<Record>, op: Option<Op>): (r: Result<map<int, real>>)
    ensures rows == [] ==> r == Ok(map[])
    ensures r.Err? ==> exists i :: 0 <= i < |rows| && Measurement(rows[i], op) == Err(r.error)
  {
    if rows == [] then Ok(map[])
    else
      match Measurement(rows[0], op)
      case Err(e) => Err(e)
      case Ok(v) =>
        match Collect(rows[1..], op)
        case Err(e) =>
          assert forall i :: 0 <= i < |rows| - 1 ==> rows[1..][i] == rows[i + 1];
          Err(e)
        case Ok(m) => Ok(map[rows[0].size := v] + m)
  }

  /** The sizes of the data rows among `rows`. */
  function SampleSizes(rows: seq<Record>): set<int>
  {
    set i | 0 <= i < |rows| && rows[i].Sample? :: rows[i].size
  }

  /** Loading a file: skip the first row, then collect the rest. */
  function Load(file: seq<Record>, operation: string): (r: Result<map<int, real>>)
    ensures file == [] ==> r == Err(EmptyFile)
    ensures file != [] && r.Err? ==>
      exists i :: 1 <= i < |file| && Measurement(file[i], ParseOp(operation)) == Err(r.error)
  {
    if file == [] then Err(EmptyFile)
    else Collect(file[1..], ParseOp(operation))
  }

  /** Collecting succeeds exactly when every row can be read. */
  lemma {:induction false} CollectSucceeds(rows: seq<Record>, op: Option<Op>)
    ensures Collect(rows, op).Ok? <==> forall i :: 0 <= i < |rows| ==> Measurement(rows[i], op).Ok?
    decreases |rows|
  {
    if rows != [] {
      CollectSucceeds(rows[1..], op);
      assert forall i :: 1 <= i < |rows| ==> rows[i] == rows[1..][i - 1];
    }
  }

  /** A failed load reports the error of the first row that cannot be read. */
  lemma {:induction false} CollectFirstError(rows: seq<Record>, op: Option<Op>, i: nat)
    requires i < |rows| && Measurement(rows[i], op).Err?
    requires forall j :: 0 <= j < i ==> Measurement(rows[j], op).Ok?
    ensures Collect(rows, op) == Err(Measurement(rows[i], op).error)
    decreases i
  {
    if i > 0 {
      assert rows[1..][i - 1] == rows[i];
      CollectFirstError(rows[1..], op, i - 1);
    }
  }

  /** The keys of a loaded dictionary are exactly the sizes of its rows. */
  lemma {:induction false} CollectKeys(rows: seq<Record>, op: Option<Op>)
    requires Collect(rows, op).Ok?
    ensures Collect(rows, op).value.Keys == SampleSizes(rows)
    decreases |rows|
  {
    if rows != [] {
      CollectKeys(rows[1..], op);
      var rest := rows[1..];
      assert SampleSizes(rows) == {rows[0].size} + SampleSizes(rest) by {
        forall k | k in SampleSizes(rows) ensures k in {rows[0].size} + SampleSizes(rest) {
          var i :| 0 <= i < |rows| && rows[i].Sample? && rows[i].size == k;
          if i > 0 { assert rest[i - 1] == rows[i]; }
        }
        forall k | k in SampleSizes(rest) ensures k in SampleSizes(rows) {
          var i :| 0 <= i < |rest| && rest[i].Sample? && rest[i].size == k;
          assert rows[i + 1] == rest[i];
        }
      }
    }
  }

  /** When a size occurs on several rows, the value of the last of them is
      the one kept. */
  lemma {:induction false} CollectLastWins(rows: seq<Record>, op: Option<Op>, i: nat)
    requires Collect(rows, op).Ok?
    requires i < |rows| && rows[i].Sample?
    requires forall j :: i < j < |rows| && rows[j].Sample? ==> rows[j].size != rows[i].size
    ensures Measurement(rows[i], op).Ok?
    ensures rows[i].size in Collect(rows, op).value
    ensures Collect(rows, op).value[rows[i].size] == Measurement(rows[i], op).value
    decreases i
  {
    var rest := rows[1..];
    if i == 0 {
      CollectSucceeds(rows, op);
      CollectKeys(rest, op);
      forall j | 0 <= j < |rest| && rest[j].Sample? ensures rest[j].size != rows[0].size {
        assert rows[j + 1] == rest[j];
      }
      assert rows[0].size !in SampleSizes(rest);
    } else {
      assert rest[i - 1] == rows[i];
      forall j | i - 1 < j < |rest| && rest[j].Sample? ensures rest[j].size != rest[i - 1].size {
        assert rest[j] == rows[j + 1];
      }
      CollectLastWins(rest, op, i - 1);
    }
  }

  /** Loading never looks at the first row. */
  lemma HeaderSkipped(h1: Record, h2: Record, rest: seq<Record>, operation: string)
    ensures Load([h1] + rest, operation) == Load([h2] + rest, operation)
  {
    assert ([h1] + rest)[1..] == rest;
    assert ([h2] + rest)[1..] == rest;
  }

  /** A successful load has one key per data row size, and needed a header. */
  lemma LoadKeys(file: seq<Record>, operation: string)
    requires Load(file, operation).Ok?
    ensures file != []
    ensures Load(file, operation).value.Keys == SampleSizes(file[1..])
  {
    CollectKeys(file[1..], ParseOp(operation));
  }

  /** A load succeeds exactly when the file has its header line and every
      later row can be read for the operation. */
  lemma LoadSucceeds(file: seq<Record>, operation: string)
    ensures Load(file, operation).Ok? <==>
      file != [] && forall i :: 1 <= i < |file| ==> Measurement(file[i], ParseOp(operation)).Ok?
  {
    if file != [] {
      CollectSucceeds(file[1..], ParseOp(operation));
      assert forall i :: 1 <= i < |file| ==> file[i] == file[1..][i - 1];
    }
  }

  /** An unrecognised operation never yields data: with a data row it fails,
      and a file holding only its header loads as the empty dictionary. */
  lemma UnknownOperationYieldsNoData(file: seq<Record>, operation: string)
    requires ParseOp(operation).None?
    ensures Load(file, operation).Ok? ==> Load(file, operation).value == map[]
    ensures |file| >= 2 && file[1].Sample? ==> Load(file, operation) == Err(UnknownOperation)
    ensures |file| == 1 ==> Load(file, operation) == Ok(map[])
  {
    var rows := if file == [] then [] else file[1..];
    if file != [] && rows != [] {
      assert Measurement(rows[0], ParseOp(operation)).Err?;
      CollectFirstError(rows, ParseOp(operation), 0);
    }
  }

  // ---------------------------------------------------------------------
  // Ratios

  /** A value as the script holds it: a float, or the integer 0 it writes
      for a missing entry. */
  datatype Number = Int(i: int) | Float(f: real)
  {
    function Value(): real
    {
      match this
      case Int(i) => i as real
      case Float(f) => f
    }
  }

  /** Division that yields 0 for a zero divisor: the ratio policy on plain
      numbers. */
  function Quotient(a: real, b: real): (q: real)
    ensures b != 0.0 ==> q * b == a
    ensures b == 0.0 ==> q == 0.0
  {
    if b == 0.0 then 0.0 else a / b
  }

  /** `num / den` size by size, over the sizes of `num` only; a size that
      `den` lacks, or maps to zero, gets the integer 0 and raises nothing. */
  function Ratios(num: map<int, real>, den: map<int, real>): (r: map<int, Number>)
    ensures r.Keys == num.Keys
    ensures forall k :: k in num && k in den && den[k] != 0.0 ==> r[k] == Float(num[k] / den[k])
    ensures forall k :: k in num && (k !in den || den[k] == 0.0) ==> r[k] == Int(0)
  {
    map k | k in num :: if k in den && den[k] != 0.0 then Float(num[k] / den[k]) else Int(0)
  }

  /** The value `dict.get(k, 0)` gives for a dataset. */
  function SampleAt(m: map<int, real>, k: int): (v: Number)
    ensures k in m ==> v == Float(m[k])
    ensures k !in m ==> v == Int(0)
  {
    if k in m then Float(m[k]) else Int(0)
  }

  /** The value `dict.get(k, 0)` gives for a ratio dataset. */
  function RatioAt(m: map<int, Number>, k: int): (v: Number)
    ensures k in m ==> v == m[k]
    ensures k !in m ==> v == Int(0)
  {
    if k in m then m[k] else Int(0)
  }

  /** A ratio is the `Quotient` of the numerator and of the denominator read
      with 0 for a missing size: missing and zero divisors are one case. */
  lemma RatioIsQuotient(num: map<int, real>, den: map<int, real>, k: int)
    ensures RatioAt(Ratios(num, den), k).Value()
         == Quotient(SampleAt(num, k).Value(), SampleAt(den, k).Value())
  {
  }

  // ---------------------------------------------------------------------
  // The report

  /** The three datasets of one operation. */
  datatype Samples = Samples(listData: map<int, real>, treeData: map<int, real>, mapData: map<int, real>)

  /** The three ratio datasets of one operation. */
  datatype RatioSets = RatioSets(treeList: map<int, Number>, listMap: map<int, Number>, treeMap: map<int, Number>)

  datatype ReportRow = ReportRow(
    size: int,
    listValue: Number, treeValue: Number, mapValue: Number,
    treeList: Number, listMap: Number, treeMap: Number)

  datatype Report = Report(header: seq<string>, rows: seq<ReportRow>)

  /** The ratios the script derives from the three datasets: tree over
      list, list over map and tree over map, each keyed by its numerator's
      sizes. */
  function DerivedRatios(data: Samples): (r: RatioSets)
    ensures r.treeList.Keys == data.treeData.Keys
    ensures r.listMap.Keys == data.listData.Keys
    ensures r.treeMap.Keys == data.treeData.Keys
    ensures forall k :: k in r.treeList ==>
      r.treeList[k].Value() == Quotient(data.treeData[k], SampleAt(data.listData, k).Value())
    ensures forall k :: k in r.listMap ==>
      r.listMap[k].Value() == Quotient(data.listData[k], SampleAt(data.mapData, k).Value())
    ensures forall k :: k in r.treeMap ==>
      r.treeMap[k].Value() == Quotient(data.treeData[k], SampleAt(data.mapData, k).Value())
  {
    RatioSets(
      Ratios(data.treeData, data.listData),
      Ratios(data.listData, data.mapData),
      Ratios(data.treeData, data.mapData))
  }

  /** Every size of any of the three datasets. */
  function Sizes(data: Samples): (s: set<int>)
    ensures forall k :: k in s <==> k in data.listData || k in data.treeData || k in data.mapData
  {
    data.listData.Keys + data.treeData.Keys + data.mapData.Keys
  }

  /** The row written for one size: each value and ratio the datasets hold
      at that size, and integer 0 for each one they lack. */
  function RowFor(data: Samples, ratios: RatioSets, size: int): (r: ReportRow)
    ensures r.size == size
    ensures r.listValue == (if size in data.listData then Float(data.listData[size]) else Int(0))
    ensures r.treeValue == (if size in data.treeData then Float(data.treeData[size]) else Int(0))
    ensures r.mapValue == (if size in data.mapData then Float(data.mapData[size]) else Int(0))
    ensures r.treeList == (if size in ratios.treeList then ratios.treeList[size] else Int(0))
    ensures r.listMap == (if size in ratios.listMap then ratios.listMap[size] else Int(0))
    ensures r.treeMap == (if size in ratios.treeMap then ratios.treeMap[size] else Int(0))
  {
    ReportRow(size,
      SampleAt(data.listData, size), SampleAt(data.treeData, size), SampleAt(data.mapData, size),
      RatioAt(ratios.treeList, size), RatioAt(ratios.listMap, size), RatioAt(ratios.treeMap, size))
  }

  /** `str.upper` on one character; only the ASCII letters are mapped. */
  function Upper(c: char): (u: char)
    ensures 'a' <= c <= 'z' ==> 'A' <= u <= 'Z' && u as int - 'A' as int == c as int - 'a' as int
    ensures !('a' <= c <= 'z') ==> u == c
  {
    if 'a' <= c <= 'z' then (c as int - 'a' as int + 'A' as int) as char else c
  }

  /** The operation name with its first character upper-cased; "" has no
      first character. */
  function Capitalize(s: string): (r: Result<string>)
    ensures r.Ok? <==> s != []
    ensures r.Ok? ==> |r.value| == |s| && r.value[0] == Upper(s[0]) && r.value[1..] == s[1..]
  {
    if s == [] then Err(EmptyOperationName) else Ok([Upper(s[0])] + s[1..])
  }

  /** The header line: the size, three timing labels naming the operation,
      three fixed ratio labels. */
  function HeaderRow(operation: string): (h: Result<seq<string>>)
    ensures h.Ok? <==> operation != []
    ensures h.Ok? ==> |h.value| == 7 && h.value[0] == "Size"
    ensures h.Ok? ==> h.value[4..] == ["Tree/List Ratio", "List/Map Ratio", "Tree/Map Ratio"]
    ensures h.Ok? ==>
      var cap := Capitalize(operation).value;
      h.value[1] == "List " + cap && h.value[2] == "Tree " + cap && h.value[3] == "Map " + cap
  {
    match Capitalize(operation)
    case Err(e) => Err(e)
    case Ok(cap) =>
      Ok(["Size", "List " + cap, "Tree " + cap, "Map " + cap,
          "Tree/List Ratio", "List/Map Ratio", "Tree/Map Ratio"])
  }

  /** The size column of a report. */
  function SizeColumn(rows: seq<ReportRow>): (s: seq<int>)
    ensures |s| == |rows|
    ensures forall i :: 0 <= i < |rows| ==> s[i] == rows[i].size
  {
    seq(|rows|, i requires 0 <= i < |rows| => rows[i].size)
  }

  /** Rows made for a list of sizes, one per size in its place, carry that
      list as their size column. */
  lemma RowsFollowOrder(data: Samples, ratios: RatioSets, order: seq<int>, rows: seq<ReportRow>)
    requires |rows| == |order|
    requires forall j :: 0 <= j < |rows| ==> rows[j] == RowFor(data, ratios, order[j])
    ensures SizeColumn(rows) == order
    ensures forall i :: 0 <= i < |rows| ==> rows[i] == RowFor(data, ratios, rows[i].size)
  {
    forall j | 0 <= j < |rows| ensures SizeColumn(rows)[j] == order[j] {
      assert rows[j] == RowFor(data, ratios, order[j]);
    }
  }

  /** The data rows of the report: for each size of `order`, in turn, the
      row of that size is appended. */
  method BuildRows(data: Samples, ratios: RatioSets, order: seq<int>) returns (rows: seq<ReportRow>)
    ensures SizeColumn(rows) == order
    ensures forall i :: 0 <= i < |rows| ==> rows[i] == RowFor(data, ratios, rows[i].size)
  {
    rows := [];
    for i := 0 to |order|
      invariant |rows| == i
      invariant forall j :: 0 <= j < i ==> rows[j] == RowFor(data, ratios, order[j])
    {
      rows := rows + [RowFor(data, ratios, order[i])];
    }
    RowsFollowOrder(data, ratios, order, rows);
  }

  /** Writing the combined report of one operation: the header, then one
      row per size of any dataset, in ascending order of size. */
  method WriteCombined(data: Samples, ratios: RatioSets, operation: string) returns (out: Result<Report>)
    ensures out.Err? <==> operation == []
    ensures out.Err? ==> out.error == EmptyOperationName
    ensures out.Ok? ==> out.value.header == HeaderRow(operation).value
    ensures out.Ok? ==> SizeColumn(out.value.rows) == SortedSizes(Sizes(data))
    ensures out.Ok? ==> |out.value.rows| == |Sizes(data)|
    ensures out.Ok? ==> forall k :: k in Sizes(data) <==> k in SizeColumn(out.value.rows)
    ensures out.Ok? ==> StrictlyAscending(SizeColumn(out.value.rows))
    ensures out.Ok? ==> forall i :: 0 <= i < |out.value.rows| ==>
      out.value.rows[i] == RowFor(data, ratios, out.value.rows[i].size)
  {
    var header := HeaderRow(operation);
    if header.Err? {
      return Err(header.error);
    }
    var sizes := Sizes(data);
    var rows := BuildRows(data, ratios, SortedSizes(sizes));
    SortedSizesSorted(sizes);
    return Ok(Report(header.value, rows));
  }

  // ---------------------------------------------------------------------
  // Reading a report back

  /** The three ratios of a row are the `Quotient`s of its own values. */
  ghost predicate RatiosMatchValues(row: ReportRow)
  {
    && row.treeList.Value() == Quotient(row.treeValue.Value(), row.listValue.Value())
    && row.listMap.Value() == Quotient(row.listValue.Value(), row.mapValue.Value())
    && row.treeMap.Value() == Quotient(row.treeValue.Value(), row.mapValue.Value())
  }

  /** Every row written from derived ratios agrees with its own values, even
      where a value was missing and written as 0. */
  lemma DerivedRowMatchesValues(data: Samples, size: int)
    ensures RatiosMatchValues(RowFor(data, DerivedRatios(data), size))
  {
    RatioIsQuotient(data.treeData, data.listData, size);
    RatioIsQuotient(data.listData, data.mapData, size);
    RatioIsQuotient(data.treeData, data.mapData, size);
  }

  /** A row as a data row of a file: the size, then the six numbers. The
      list, tree and map values sit in the fields that the add, lookup and
      remove operations read. */
  function RowRecord(row: ReportRow): (r: Record)
    ensures r.Sample? && r.size == row.size && |r.values| == 6
    ensures r.values[Column(Add) - 1] == row.listValue.Value()
    ensures r.values[Column(Lookup) - 1] == row.treeValue.Value()
    ensures r.values[Column(Remove) - 1] == row.mapValue.Value()
    ensures r.values[3..] == [row.treeList.Value(), row.listMap.Value(), row.treeMap.Value()]
  {
    Sample(row.size, [row.listValue.Value(), row.treeValue.Value(), row.mapValue.Value(),
                      row.treeList.Value(), row.listMap.Value(), row.treeMap.Value()])
  }

  /** A report as a file: the header line, then one data row per row. */
  function ReportFile(report: Report): (file: seq<Record>)
    ensures |file| == |report.rows| + 1 && file[0] == Text(report.header)
    ensures forall i :: 0 <= i < |report.rows| ==> file[i + 1] == RowRecord(report.rows[i])
  {
    [Text(report.header)] + seq(|report.rows|, i requires 0 <= i < |report.rows| => RowRecord(report.rows[i]))
  }

  /** Loading a report file as a timing file reads its list column for "add",
      its tree column for "lookup" and its map column for "remove"; dividing
      those again gives back the ratio columns. */
  ghost predicate RatiosReload(report: Report)
  {
    var file := ReportFile(report);
    var list, tree, hash := Load(file, "add"), Load(file, "lookup"), Load(file, "remove");
    && list.Ok? && tree.Ok? && hash.Ok?
    && forall i :: 0 <= i < |report.rows| ==>
      var row, size := report.rows[i], report.rows[i].size;
      && RatioAt(Ratios(tree.value, list.value), size).Value() == row.treeList.Value()
      && RatioAt(Ratios(list.value, hash.value), size).Value() == row.listMap.Value()
      && RatioAt(Ratios(tree.value, hash.value), size).Value() == row.treeMap.Value()
  }

  /** Loading by an operation's own name reads that operation's column. */
  lemma LoadByName(file: seq<Record>, op: Op)
    requires file != []
    ensures Load(file, Name(op)) == Collect(file[1..], Some(op))
  {
    assert ParseOp(Name(op)) == Some(op);
  }

  /** The data rows of a report file are the rows' records, in order. */
  lemma ReportDataRows(report: Report)
    ensures |ReportFile(report)[1..]| == |report.rows|
    ensures forall j :: 0 <= j < |report.rows| ==>
      && ReportFile(report)[1..][j].Sample?
      && ReportFile(report)[1..][j].size == report.rows[j].size
      && |ReportFile(report)[1..][j].values| == 6
  {
    var rows := ReportFile(report)[1..];
    forall j | 0 <= j < |report.rows| ensures rows[j] == RowRecord(report.rows[j]) {
      assert rows[j] == ReportFile(report)[j + 1];
    }
  }

  /** Collecting readable rows whose sizes strictly ascend keeps every
      row's own value at its size. */
  lemma CollectAscending(rows: seq<Record>, op: Op, i: nat)
    requires forall j :: 0 <= j < |rows| ==> rows[j].Sample? && Column(op) <= |rows[j].values|
    requires forall j, k :: 0 <= j < k < |rows| ==> rows[j].size < rows[k].size
    requires i < |rows|
    ensures Collect(rows, Some(op)).Ok?
    ensures rows[i].size in Collect(rows, Some(op)).value
    ensures Collect(rows, Some(op)).value[rows[i].size] == rows[i].values[Column(op) - 1]
  {
    CollectSucceeds(rows, Some(op));
    CollectLastWins(rows, Some(op), i);
  }

  /** Collecting the data rows of a report for column `op` keeps row `i`'s
      field of that column at its size. */
  lemma CollectReportRows(report: Report, op: Op, i: nat)
    requires StrictlyAscending(SizeColumn(report.rows))
    requires i < |report.rows|
    ensures Collect(ReportFile(report)[1..], Some(op)).Ok?
    ensures report.rows[i].size in Collect(ReportFile(report)[1..], Some(op)).value
    ensures Collect(ReportFile(report)[1..], Some(op)).value[report.rows[i].size]
         == RowRecord(report.rows[i]).values[Column(op) - 1]
  {
    var rows := ReportFile(report)[1..];
    ReportDataRows(report);
    forall j, k | 0 <= j < k < |rows| ensures rows[j].size < rows[k].size {
      assert SizeColumn(report.rows)[j] < SizeColumn(report.rows)[k];
    }
    CollectAscending(rows, op, i);
    assert rows[i] == ReportFile(report)[i + 1];
  }

  /** The value of column `op` on row `i` of a report, once reloaded. */
  lemma ReloadedValue(report: Report, op: Op, i: nat)
    requires StrictlyAscending(SizeColumn(report.rows))
    requires i < |report.rows|
    ensures Load(ReportFile(report), Name(op)).Ok?
    ensures report.rows[i].size in Load(ReportFile(report), Name(op)).value
    ensures Load(ReportFile(report), Name(op)).value[report.rows[i].size]
         == RowRecord(report.rows[i]).values[Column(op) - 1]
  {
    LoadByName(ReportFile(report), op);
    CollectReportRows(report, op, i);
  }

  /** Dividing two reloaded columns at a size both hold. */
  lemma RecomputedRatio(num: map<int, real>, den: map<int, real>, size: int, a: real, b: real)
    requires size in num && num[size] == a
    requires size in den && den[size] == b
    ensures RatioAt(Ratios(num, den), size).Value() == Quotient(a, b)
  {
  }

  /** The round trip for one row. */
  lemma RowRoundTrip(data: Samples, report: Report, i: nat)
    requires StrictlyAscending(SizeColumn(report.rows))
    requires i < |report.rows|
    requires report.rows[i] == RowFor(data, DerivedRatios(data), report.rows[i].size)
    ensures Load(ReportFile(report), "add").Ok?
    ensures Load(ReportFile(report), "lookup").Ok?
    ensures Load(ReportFile(report), "remove").Ok?
    ensures
      var file := ReportFile(report);
      var list, tree, hash := Load(file, "add").value, Load(file, "lookup").value, Load(file, "remove").value;
      var row, size := report.rows[i], report.rows[i].size;
      && RatioAt(Ratios(tree, list), size).Value() == row.treeList.Value()
      && RatioAt(Ratios(list, hash), size).Value() == row.listMap.Value()
      && RatioAt(Ratios(tree, hash), size).Value() == row.treeMap.Value()
  {
    var file := ReportFile(report);
    var row, size := report.rows[i], report.rows[i].size;
    var values := RowRecord(row).values;
    ReloadedValue(report, Add, i);
    ReloadedValue(report, Lookup, i);
    ReloadedValue(report, Remove, i);
    var list, tree, hash := Load(file, "add").value, Load(file, "lookup").value, Load(file, "remove").value;
    assert list[size] == values[0] == row.listValue.Value();
    assert tree[size] == values[1] == row.treeValue.Value();
    assert hash[size] == values[2] == row.mapValue.Value();
    DerivedRowMatchesValues(data, size);
    assert RatiosMatchValues(row);
    RecomputedRatio(tree, list, size, row.treeValue.Value(), row.listValue.Value());
    RecomputedRatio(list, hash, size, row.listValue.Value(), row.mapValue.Value());
    RecomputedRatio(tree, hash, size, row.treeValue.Value(), row.mapValue.Value());
  }

  /** Round trip: a report written from derived ratios, read back column by
      column, yields the same ratios again. */
  lemma ReportRoundTrip(data: Samples, report: Report)
    requires StrictlyAscending(SizeColumn(report.rows))
    requires forall i :: 0 <= i < |report.rows| ==>
      report.rows[i] == RowFor(data, DerivedRatios(data), report.rows[i].size)
    ensures RatiosReload(report)
  {
    var file := ReportFile(report);
    if report.rows == [] {
      assert file[1..] == [];
    } else {
      RowRoundTrip(data, report, 0);
    }
    forall i | 0 <= i < |report.rows| {
      RowRoundTrip(data, report, i);
    }
  }

  // ---------------------------------------------------------------------
  // Worked examples

  /** Size 10 in all three files, the map timing zero: tree/list is a true
      quotient, both ratios over the map are the integer 0. */
  lemma ExampleZeroDivisor()
    ensures
      var header := Text(["size", "add_time", "lookup_time", "remove_time"]);
      && Load([header, Sample(10, [1.0, 2.0, 3.0])], "add") == Ok(map[10 := 1.0])
      && Load([header, Sample(10, [2.0, 4.0, 6.0])], "add") == Ok(map[10 := 2.0])
      && Load([header, Sample(10, [0.0, 1.0, 1.0])], "add") == Ok(map[10 := 0.0])
    ensures
      var data := Samples(map[10 := 1.0], map[10 := 2.0], map[10 := 0.0]);
      RowFor(data, DerivedRatios(data), 10)
        == ReportRow(10, Float(1.0), Float(2.0), Float(0.0), Float(2.0), Int(0), Int(0))
  {
    var header := Text(["size", "add_time", "lookup_time", "remove_time"]);
    var values := [[1.0, 2.0, 3.0], [2.0, 4.0, 6.0], [0.0, 1.0, 1.0]];
    forall v | v in values
      ensures Load([header, Sample(10, v)], "add") == Ok(map[10 := v[0]])
    {
      assert [header, Sample(10, v)][1..] == [Sample(10, v)];
      assert Collect([Sample(10, v)][1..], Some(Add)) == Ok(map[]);
      assert map[10 := v[0]] + map[] == map[10 := v[0]];
    }
  }

  /** A size only the tree file has still gets a row, with 0 for the
      missing values and for every ratio. */
  lemma ExampleTreeOnly()
    ensures
      var data := Samples(map[], map[20 := 5.0], map[]);
      && Sizes(data) == {20}
      && RowFor(data, DerivedRatios(data), 20)
         == ReportRow(20, Int(0), Float(5.0), Int(0), Int(0), Int(0), Int(0))
  {
  }

  // ---------------------------------------------------------------------
  // One operation end to end

  /** The combined report of one operation from the three timing files:
      load list, tree and map in that order, derive the three ratios, write. */
  method CombineOperation(listFile: seq<Record>, treeFile: seq<Record>, mapFile: seq<Record>, operation: string)
    returns (out: Result<Report>)
    ensures Load(listFile, operation).Err? ==> out == Err(Load(listFile, operation).error)
    ensures Load(listFile, operation).Ok? && Load(treeFile, operation).Err? ==>
      out == Err(Load(treeFile, operation).error)
    ensures Load(listFile, operation).Ok? && Load(treeFile, operation).Ok? && Load(mapFile, operation).Err? ==>
      out == Err(Load(mapFile, operation).error)
    ensures out.Ok? <==>
      Load(listFile, operation).Ok? && Load(treeFile, operation).Ok? && Load(mapFile, operation).Ok? &&
      operation != []
    ensures (operation == [] && Load(listFile, operation).Ok? && Load(treeFile, operation).Ok? &&
             Load(mapFile, operation).Ok?) ==> out == Err(EmptyOperationName)
    ensures out.Ok? ==> out.value.header == HeaderRow(operation).value
    ensures out.Ok? ==>
      var data := Samples(Load(listFile, operation).value, Load(treeFile, operation).value,
                          Load(mapFile, operation).value);
      && |out.value.rows| == |Sizes(data)|
      && (forall k :: k in Sizes(data) <==> k in SizeColumn(out.value.rows))
      && StrictlyAscending(SizeColumn(out.value.rows))
      && (forall i :: 0 <= i < |out.value.rows| ==>
            out.value.rows[i] == RowFor(data, DerivedRatios(data), out.value.rows[i].size))
    ensures out.Ok? ==> forall i :: 0 <= i < |out.value.rows| ==> RatiosMatchValues(out.value.rows[i])
    ensures out.Ok? ==> RatiosReload(out.value)
  {
    var listData := Load(listFile, operation);
    if listData.Err? {
      return Err(listData.error);
    }
    var treeData := Load(treeFile, operation);
    if treeData.Err? {
      return Err(treeData.error);
    }
    var mapData := Load(mapFile, operation);
    if mapData.Err? {
      return Err(mapData.error);
    }
    var data := Samples(listData.value, treeData.value, mapData.value);
    out := WriteCombined(data, DerivedRatios(data), operation);
    if out.Ok? {
      forall i | 0 <= i < |out.value.rows| ensures RatiosMatchValues(out.value.rows[i]) {
        DerivedRowMatchesValues(data, out.value.rows[i].size);
      }
      ReportRoundTrip(data, out.value);
    }
  }
}
