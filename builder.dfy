/**
 * PropertyTableBuilder: the size pre-scan that creates an array-backed table,
 * and fillPropertyTable, which reads the header into columns and every later
 * line into a row. The CSV file is given as its already tokenised lines.
 */
module Builder {
  import opened Wrappers
  import opened JavaText
  import opened Foreign
  import opened Literals
  import opened Overrides
  import opened PropertyTables

  /** The NAMESPACE and MAPPING settings, passed explicitly. */
  datatype Config = Config(namespace: Option<string>, mapping: Option<map<string, string>>)

  /** The namespace of default column keys: NAMESPACE if set, else the CSV path. */
  function BaseNamespace(cfg: Config, csvFilePath: string): string {
    match cfg.namespace
    case Some(ns) => ns
    case None => csvFilePath
  }

  // ---------------------------------------------------------------------------
  // Size pre-scan (createEmptyPropertyTableArrayImpl)

  /** The capacity the pre-scan asks for: every line including the header, and
    * the header's width plus the reserved row column; none for an empty file
    * or an empty first line. */
  function PreScanCapacity(lines: seq<seq<string>>): Option<Capacity> {
    if |lines| == 0 || |lines[0]| == 0 then None
    else Some(Capacity(|lines|, |lines[0]| + 1))
  }

  /** The counting loop: the number of lines and the width of the first one. */
  method CountLines(lines: seq<seq<string>>) returns (rowNum: nat, columnNum: nat)
    ensures rowNum == |lines|
    ensures columnNum == if lines == [] then 0 else |lines[0]|
  {
    rowNum, columnNum := 0, 0;
    while rowNum < |lines|
      invariant rowNum <= |lines|
      invariant columnNum == if rowNum == 0 then 0 else |lines[0]|
    {
      if rowNum == 0 {
        columnNum := |lines[rowNum]|;
      }
      rowNum := rowNum + 1;
    }
  }

  method CreateEmptyArrayTable(lines: seq<seq<string>>) returns (table: PropertyTable?)
    ensures PreScanCapacity(lines).None? ==> table == null
    ensures PreScanCapacity(lines).Some? ==>
      table != null && fresh(table) && table.capacity == PreScanCapacity(lines)
      && table.columns == [] && table.rows == []
  {
    var rowNum, columnNum := CountLines(lines);
    if rowNum != 0 && columnNum != 0 {
      table := new PropertyTable.ArrayBacked(rowNum, columnNum + 1);
    } else {
      table := null;
    }
  }

  // ---------------------------------------------------------------------------
  // The header: one column per field, in order.

  /** The keys created, the explicit datatypes recorded by 0-based column, and
    * the error that stopped the header loop, if any. */
  datatype HeaderScan = HeaderScan(keys: seq<string>, datatypes: map<nat, string>, error: Option<ColumnError>)

  /** The header loop after its first n fields. */
  function ScanHeader(lib: Library, cfg: Config, csvFilePath: string, header: seq<string>, n: nat): (scan: HeaderScan)
    requires n <= |header|
    ensures |scan.keys| <= n
    ensures scan.error.None? ==> |scan.keys| == n
    ensures forall c :: c in scan.datatypes ==> c < |scan.keys|
  {
    if n == 0 then HeaderScan([], map[], None)
    else
      var prev := ScanHeader(lib, cfg, csvFilePath, header, n - 1);
      if prev.error.Some? then prev
      else
        match ResolveColumn(lib, BaseNamespace(cfg, csvFilePath), cfg.mapping, n, header[n - 1])
        case Failure(e) => prev.(error := Some(e))
        case Success(column) =>
          HeaderScan(prev.keys + [column.key],
                     if column.dtype.Some? then prev.datatypes[n - 1 := column.dtype.value] else prev.datatypes,
                     None)
  }

  function Lookup(datatypes: map<nat, string>, col: nat): Option<string> {
    if col in datatypes then Some(datatypes[col]) else None
  }

  /** Once a header field has failed, later fields change nothing. */
  lemma {:induction false} ScanHeaderErrorSticks(lib: Library, cfg: Config, csvFilePath: string,
                                                 header: seq<string>, m: nat, n: nat)
    requires m <= n <= |header|
    requires ScanHeader(lib, cfg, csvFilePath, header, m).error.Some?
    ensures ScanHeader(lib, cfg, csvFilePath, header, n) == ScanHeader(lib, cfg, csvFilePath, header, m)
  {
    hide ResolveColumn;
    if n > m {
      ScanHeaderErrorSticks(lib, cfg, csvFilePath, header, m, n - 1);
    }
  }

  /** A header read without error has, at field c, the resolved key and datatype. */
  lemma {:induction false} ScanHeaderAt(lib: Library, cfg: Config, csvFilePath: string,
                                        header: seq<string>, n: nat, c: nat)
    requires c < n <= |header|
    requires ScanHeader(lib, cfg, csvFilePath, header, n).error.None?
    ensures var scan := ScanHeader(lib, cfg, csvFilePath, header, n);
      var r := ResolveColumn(lib, BaseNamespace(cfg, csvFilePath), cfg.mapping, c + 1, header[c]);
      r.Success? && scan.keys[c] == r.value.key && Lookup(scan.datatypes, c) == r.value.dtype
  {
    hide ResolveColumn;
    var prev := ScanHeader(lib, cfg, csvFilePath, header, n - 1);
    assert prev.error.None?;
    if c < n - 1 {
      ScanHeaderAt(lib, cfg, csvFilePath, header, n - 1, c);
      var scan := ScanHeader(lib, cfg, csvFilePath, header, n);
      assert scan.keys[c] == prev.keys[c];
      assert Lookup(scan.datatypes, c) == Lookup(prev.datatypes, c);
    }
  }

  /** A header read that failed stopped at the first field that does not resolve:
    * the fields before it were read without error into the same keys. */
  lemma {:induction false} ScanHeaderFailure(lib: Library, cfg: Config, csvFilePath: string,
                                             header: seq<string>, n: nat)
    requires n <= |header|
    requires ScanHeader(lib, cfg, csvFilePath, header, n).error.Some?
    ensures var scan := ScanHeader(lib, cfg, csvFilePath, header, n);
      var c := |scan.keys|;
      && c < n
      && ResolveColumn(lib, BaseNamespace(cfg, csvFilePath), cfg.mapping, c + 1, header[c]) == Failure(scan.error.value)
      && ScanHeader(lib, cfg, csvFilePath, header, c).error.None?
      && ScanHeader(lib, cfg, csvFilePath, header, c).keys == scan.keys
  {
    hide ResolveColumn;
    var prev := ScanHeader(lib, cfg, csvFilePath, header, n - 1);
    if prev.error.Some? {
      ScanHeaderFailure(lib, cfg, csvFilePath, header, n - 1);
    }
  }

  /** Without a mapping the header never fails, every key is the default one and
    * no column has an explicit datatype. */
  lemma {:induction false} ScanHeaderWithoutMapping(lib: Library, cfg: Config, csvFilePath: string,
                                                    header: seq<string>, n: nat)
    requires n <= |header| && cfg.mapping.None?
    ensures var scan := ScanHeader(lib, cfg, csvFilePath, header, n);
      && scan.error.None?
      && scan.datatypes == map[]
      && forall c :: 0 <= c < n ==> scan.keys[c] == ColumnKey(lib, BaseNamespace(cfg, csvFilePath), header[c])
  {
    hide Trim;
    if n > 0 {
      ScanHeaderWithoutMapping(lib, cfg, csvFilePath, header, n - 1);
    }
  }

  // ---------------------------------------------------------------------------
  // The data rows.

  function Min(a: nat, b: nat): nat {
    if a < b then a else b
  }

  /** The cells of the k-th data row after its first n fields: the row ordinal,
    * then one cell per non-blank field, a later one replacing an earlier one
    * under the same key. */
  function RowCells(lib: Library, keys: seq<string>, datatypes: map<nat, string>,
                    line: seq<string>, k: nat, n: nat): map<string, Literal>
    requires n <= |line| && n <= |keys|
  {
    if n == 0 then map[CsvRowKey := OrdinalLiteral(k)]
    else
      var cells := RowCells(lib, keys, datatypes, line, k, n - 1);
      var value := Trim(line[n - 1]);
      if value == "" then cells
      else cells[keys[n - 1] := InferCell(lib, Lookup(datatypes, n - 1), value)]
  }

  /** The row made from the k-th data line. */
  function DataRow(lib: Library, csvFilePath: string, keys: seq<string>, datatypes: map<nat, string>,
                   line: seq<string>, k: nat): Row
  {
    Row(lib.subject(k, csvFilePath), RowCells(lib, keys, datatypes, line, k, Min(|line|, |keys|)))
  }

  /** The rows made from the data lines, numbered from 1. */
  function DataRows(lib: Library, csvFilePath: string, keys: seq<string>, datatypes: map<nat, string>,
                    lines: seq<seq<string>>): (rows: seq<Row>)
    ensures |rows| == |lines|
  {
    if lines == [] then []
    else
      DataRows(lib, csvFilePath, keys, datatypes, lines[..|lines| - 1])
        + [DataRow(lib, csvFilePath, keys, datatypes, lines[|lines| - 1], |lines|)]
  }

  /** The row at position j comes from line j and carries ordinal j + 1. */
  lemma {:induction false} DataRowsAt(lib: Library, csvFilePath: string, keys: seq<string>,
                                      datatypes: map<nat, string>, lines: seq<seq<string>>, j: nat)
    requires j < |lines|
    ensures DataRows(lib, csvFilePath, keys, datatypes, lines)[j]
         == DataRow(lib, csvFilePath, keys, datatypes, lines[j], j + 1)
  {
    hide InferCell, Trim;
    if j < |lines| - 1 {
      var prefix := lines[..|lines| - 1];
      DataRowsAt(lib, csvFilePath, keys, datatypes, prefix, j);
      assert prefix[j] == lines[j];
    }
  }

  /** A row has cells only under the reserved key and the keys of the fields read. */
  lemma {:induction false} RowCellsKeys(lib: Library, keys: seq<string>, datatypes: map<nat, string>,
                                        line: seq<string>, k: nat, n: nat)
    requires n <= |line| && n <= |keys|
    ensures forall key :: key in RowCells(lib, keys, datatypes, line, k, n) ==> key == CsvRowKey || key in keys[..n]
  {
    hide InferCell, Trim;
    if n > 0 {
      RowCellsKeys(lib, keys, datatypes, line, k, n - 1);
      assert keys[..n] == keys[..n - 1] + [keys[n - 1]];
    }
  }

  /** The reserved cell holds the row ordinal unless a column shares its key. */
  lemma {:induction false} RowCellsOrdinal(lib: Library, keys: seq<string>, datatypes: map<nat, string>,
                                           line: seq<string>, k: nat, n: nat)
    requires n <= |line| && n <= |keys|
    requires CsvRowKey !in keys
    ensures var cells := RowCells(lib, keys, datatypes, line, k, n);
      CsvRowKey in cells && cells[CsvRowKey] == OrdinalLiteral(k)
  {
    hide InferCell, Trim;
    if n > 0 {
      RowCellsOrdinal(lib, keys, datatypes, line, k, n - 1);
    }
  }

  /** With distinct keys, column c holds a cell exactly when its field is not
    * blank, and the cell is the inferred literal of the trimmed field. */
  lemma {:induction false} RowCellsAt(lib: Library, keys: seq<string>, datatypes: map<nat, string>,
                                      line: seq<string>, k: nat, n: nat, c: nat)
    requires c < n <= |line| && n <= |keys|
    requires CsvRowKey !in keys
    requires forall i, j :: 0 <= i < j < |keys| ==> keys[i] != keys[j]
    ensures var cells := RowCells(lib, keys, datatypes, line, k, n);
      && (keys[c] in cells <==> Trim(line[c]) != "")
      && (keys[c] in cells ==> cells[keys[c]] == InferCell(lib, Lookup(datatypes, c), Trim(line[c])))
  {
    hide InferCell, Trim;
    if c < n - 1 {
      RowCellsAt(lib, keys, datatypes, line, k, n - 1, c);
      assert keys[c] != keys[n - 1];
    } else {
      RowCellsKeys(lib, keys, datatypes, line, k, n - 1);
      assert forall i :: 0 <= i < n - 1 ==> keys[i] != keys[c];
      assert keys[c] !in keys[..n - 1];
    }
  }

  /** With distinct keys, a column the line does not reach holds no cell. */
  lemma RowCellsBeyond(lib: Library, keys: seq<string>, datatypes: map<nat, string>,
                       line: seq<string>, k: nat, n: nat, c: nat)
    requires n <= c < |keys| && n <= |line|
    requires forall i, j :: 0 <= i < j < |keys| ==> keys[i] != keys[j]
    requires CsvRowKey !in keys
    ensures keys[c] !in RowCells(lib, keys, datatypes, line, k, n)
  {
    hide InferCell, Trim;
    RowCellsKeys(lib, keys, datatypes, line, k, n);
    assert forall i :: 0 <= i < n ==> keys[i] != keys[c];
    assert keys[c] !in keys[..n];
  }

  /** The j-th row (0-based) of the data rows has the subject minted for ordinal
    * j + 1 and holds that ordinal in the reserved column. */
  lemma DataRowNumbering(lib: Library, csvFilePath: string, keys: seq<string>, datatypes: map<nat, string>,
                         data: seq<seq<string>>, j: nat)
    requires j < |data| && CsvRowKey !in keys
    ensures var row := DataRows(lib, csvFilePath, keys, datatypes, data)[j];
      && row.subject == lib.subject(j + 1, csvFilePath)
      && CsvRowKey in row.cells && row.cells[CsvRowKey] == OrdinalLiteral(j + 1)
  {
    hide InferCell, Trim;
    DataRowsAt(lib, csvFilePath, keys, datatypes, data, j);
    RowCellsOrdinal(lib, keys, datatypes, data[j], j + 1, Min(|data[j]|, |keys|));
  }

  /** With distinct keys, the row made from data[j] holds a cell in column c
    * exactly when data[j] reaches c with a non-blank field, and that cell is
    * the literal inferred from the trimmed field. */
  lemma DataRowCell(lib: Library, csvFilePath: string, keys: seq<string>, datatypes: map<nat, string>,
                    data: seq<seq<string>>, j: nat, c: nat)
    requires j < |data| && c < |keys|
    requires CsvRowKey !in keys && forall a, b :: 0 <= a < b < |keys| ==> keys[a] != keys[b]
    ensures var row := DataRows(lib, csvFilePath, keys, datatypes, data)[j];
      && (keys[c] in row.cells <==> c < |data[j]| && Trim(data[j][c]) != "")
      && (keys[c] in row.cells ==> row.cells[keys[c]] == InferCell(lib, Lookup(datatypes, c), Trim(data[j][c])))
  {
    hide InferCell, Trim;
    DataRowsAt(lib, csvFilePath, keys, datatypes, data, j);
    var n := Min(|data[j]|, |keys|);
    if c < n {
      RowCellsAt(lib, keys, datatypes, data[j], j + 1, n, c);
    } else {
      RowCellsBeyond(lib, keys, datatypes, data[j], j + 1, n, c);
    }
  }

  /**
   * The cell of data line j (1-based, the header being line 0) in header column c,
   * when the header resolved without error into distinct keys other than the
   * reserved one: present exactly when line j reaches column c and the field is
   * not blank, and then the literal inferred from the trimmed field under the
   * column's explicit datatype.
   */
  lemma FilledCell(lib: Library, cfg: Config, csvFilePath: string, lines: seq<seq<string>>, j: nat, c: nat)
    requires 1 <= j < |lines| && c < |lines[0]|
    requires ScanHeader(lib, cfg, csvFilePath, lines[0], |lines[0]|).error.None?
    requires var keys := ScanHeader(lib, cfg, csvFilePath, lines[0], |lines[0]|).keys;
      CsvRowKey !in keys && forall a, b :: 0 <= a < b < |keys| ==> keys[a] != keys[b]
    ensures var scan := ScanHeader(lib, cfg, csvFilePath, lines[0], |lines[0]|);
      var column := ResolveColumn(lib, BaseNamespace(cfg, csvFilePath), cfg.mapping, c + 1, lines[0][c]);
      var row := DataRows(lib, csvFilePath, scan.keys, scan.datatypes, lines[1..])[j - 1];
      && column.Success? && scan.keys[c] == column.value.key
      && (column.value.key in row.cells <==> c < |lines[j]| && Trim(lines[j][c]) != "")
      && (column.value.key in row.cells ==>
            row.cells[column.value.key] == InferCell(lib, column.value.dtype, Trim(lines[j][c])))
  {
    hide InferCell, Trim, ResolveColumn;
    var header := lines[0];
    var scan := ScanHeader(lib, cfg, csvFilePath, header, |header|);
    ScanHeaderAt(lib, cfg, csvFilePath, header, |header|, c);
    var data := lines[1..];
    DataRowCell(lib, csvFilePath, scan.keys, scan.datatypes, data, j - 1, c);
    assert data[j - 1] == lines[j];
  }

  /**
   * Without a mapping, headers with distinct local names give the table the
   * default keys in header order, and the cell of data line j in column c is
   * present exactly for a non-blank field and is then inferred without an
   * explicit datatype; every row also holds its ordinal under its own subject.
   */
  lemma FilledTableWithoutMapping(lib: Library, cfg: Config, csvFilePath: string, lines: seq<seq<string>>,
                                  j: nat, c: nat)
    requires cfg.mapping.None? && 1 <= j < |lines| && c < |lines[0]|
    requires forall a, b :: 0 <= a < b < |lines[0]| ==> lib.safeLocalname(lines[0][a]) != lib.safeLocalname(lines[0][b])
    ensures var scan := ScanHeader(lib, cfg, csvFilePath, lines[0], |lines[0]|);
      var key := ColumnKey(lib, BaseNamespace(cfg, csvFilePath), lines[0][c]);
      var row := DataRows(lib, csvFilePath, scan.keys, scan.datatypes, lines[1..])[j - 1];
      && scan.error.None? && scan.keys[c] == key
      && row.subject == lib.subject(j, csvFilePath)
      && CsvRowKey in row.cells && row.cells[CsvRowKey] == OrdinalLiteral(j)
      && (key in row.cells <==> c < |lines[j]| && Trim(lines[j][c]) != "")
      && (key in row.cells ==> row.cells[key] == InferCell(lib, None, Trim(lines[j][c])))
  {
    hide InferCell, Trim;
    var header := lines[0];
    var namespace := BaseNamespace(cfg, csvFilePath);
    var scan := ScanHeader(lib, cfg, csvFilePath, header, |header|);
    ScanHeaderWithoutMapping(lib, cfg, csvFilePath, header, |header|);
    forall a, b | 0 <= a < b < |scan.keys| ensures scan.keys[a] != scan.keys[b] {
      ColumnKeyInjective(lib, namespace, header[a], header[b]);
    }
    forall i | 0 <= i < |scan.keys| ensures scan.keys[i] != CsvRowKey {
      ColumnKeyIsNotRowKey(lib, namespace, header[i]);
    }
    FilledCell(lib, cfg, csvFilePath, lines, j, c);
    DataRowNumbering(lib, csvFilePath, scan.keys, scan.datatypes, lines[1..], j - 1);
  }

  /**
   * A column whose mapping entry is "identifier>dt", two valid URIs without
   * surrounding blanks, is keyed by the identifier, and each of its cells is
   * the trimmed field tagged with dt, or a plain literal of it when the
   * literal cannot be built: never an integer, double, boolean or string
   * literal, whatever the field looks like.
   */
  lemma ExplicitDatatypeColumn(lib: Library, cfg: Config, csvFilePath: string, lines: seq<seq<string>>,
                               j: nat, c: nat, identifier: string, dt: string)
    requires 1 <= j < |lines| && c < |lines[0]|
    requires cfg.mapping.Some?
    requires '>' !in identifier && '>' !in dt
    requires identifier != "" && !IsTrimmable(identifier[0]) && !IsTrimmable(identifier[|identifier| - 1])
    requires dt != "" && !IsTrimmable(dt[0]) && !IsTrimmable(dt[|dt| - 1])
    requires lib.isUri(identifier) && lib.isUri(dt)
    requires NatToDecimal(c + 1) in cfg.mapping.value
    requires cfg.mapping.value[NatToDecimal(c + 1)] == identifier + ">" + dt
    requires ScanHeader(lib, cfg, csvFilePath, lines[0], |lines[0]|).error.None?
    requires var keys := ScanHeader(lib, cfg, csvFilePath, lines[0], |lines[0]|).keys;
      CsvRowKey !in keys && forall a, b :: 0 <= a < b < |keys| ==> keys[a] != keys[b]
    ensures var scan := ScanHeader(lib, cfg, csvFilePath, lines[0], |lines[0]|);
      var row := DataRows(lib, csvFilePath, scan.keys, scan.datatypes, lines[1..])[j - 1];
      && scan.keys[c] == identifier
      && (identifier in row.cells <==> c < |lines[j]| && Trim(lines[j][c]) != "")
      && (identifier in row.cells ==>
            var value := Trim(lines[j][c]);
            && (row.cells[identifier] == Typed(value, dt) || row.cells[identifier] == Plain(value))
            && (row.cells[identifier].Typed? <==> !lib.rejectsLexical(value, dt)))
  {
    hide Trim, ResolveColumn;
    ResolveWellFormedEntry(lib, BaseNamespace(cfg, csvFilePath), cfg.mapping.value, c + 1, lines[0][c], identifier, dt);
    FilledCell(lib, cfg, csvFilePath, lines, j, c);
  }

  /** The array table the pre-scan sizes has exactly the columns the fill
    * creates and room for every data row. */
  lemma FilledTableFitsPreScan(lib: Library, cfg: Config, csvFilePath: string, lines: seq<seq<string>>)
    requires PreScanCapacity(lines).Some?
    requires ScanHeader(lib, cfg, csvFilePath, lines[0], |lines[0]|).error.None?
    ensures var capacity := PreScanCapacity(lines).value;
      var scan := ScanHeader(lib, cfg, csvFilePath, lines[0], |lines[0]|);
      && |[CsvRowKey] + scan.keys| == capacity.columns
      && |DataRows(lib, csvFilePath, scan.keys, scan.datatypes, lines[1..])| < capacity.rows
  {
    hide InferCell, Trim, ResolveColumn;
  }

  // ---------------------------------------------------------------------------
  // fillPropertyTable

  /** What fillPropertyTable hands back: a table (possibly null), or the exception
    * that left it. */
  datatype FillOutcome = Returned(table: PropertyTable?) | Thrown(error: ColumnError)

  /**
   * The header loop of fillPropertyTable: resolves each field of row1 in order,
   * appends its key to predicates and creates its column, and records its
   * explicit datatype by 0-based column. A field that does not resolve throws.
   */
  method CreateHeaderColumns(table: PropertyTable, row1: seq<string>, csvFilePath: string,
                             cfg: Config, lib: Library)
    returns (predicates: seq<string>, columnDatatypes: map<nat, string>, error: Option<ColumnError>)
    modifies table
    ensures HeaderScan(predicates, columnDatatypes, error) == ScanHeader(lib, cfg, csvFilePath, row1, |row1|)
    ensures table.columns == old(table.columns) + predicates
    ensures table.rows == old(table.rows)
  {
    hide ResolveColumn;
    var namespace := BaseNamespace(cfg, csvFilePath);
    predicates, columnDatatypes, error := [], map[], None;
    var colNum := 0;
    while colNum < |row1|
      invariant colNum <= |row1|
      invariant ScanHeader(lib, cfg, csvFilePath, row1, colNum) == HeaderScan(predicates, columnDatatypes, None)
      invariant table.columns == old(table.columns) + predicates
      invariant table.rows == old(table.rows)
    {
      colNum := colNum + 1;
      var resolved := ResolveColumn(lib, namespace, cfg.mapping, colNum, row1[colNum - 1]);
      if resolved.Failure? {
        error := Some(resolved.error);
        ScanHeaderErrorSticks(lib, cfg, csvFilePath, row1, colNum, |row1|);
        return;
      }
      if resolved.value.dtype.Some? {
        columnDatatypes := columnDatatypes[colNum - 1 := resolved.value.dtype.value];
      }
      predicates := predicates + [resolved.value.key];
      table.CreateColumn(resolved.value.key);
    }
  }

  /** One step of the column loop: the field at col, trimmed, is set in its
    * column unless it is blank. */
  method SetCell(table: PropertyTable, row: nat, rowLine: seq<string>, rowNum: nat, col: nat,
                 predicates: seq<string>, columnDatatypes: map<nat, string>, lib: Library)
    requires row + 1 == |table.rows|
    requires col < |rowLine| && col < |predicates|
    requires table.rows[row].cells == RowCells(lib, predicates, columnDatatypes, rowLine, rowNum, col)
    requires forall key :: key in predicates ==> key in table.columns
    modifies table
    ensures table.columns == old(table.columns)
    ensures |table.rows| == row + 1 && table.rows[..row] == old(table.rows)[..row]
    ensures table.rows[row] == Row(old(table.rows)[row].subject,
      RowCells(lib, predicates, columnDatatypes, rowLine, rowNum, col + 1))
  {
    hide InferCell, Trim;
    var columnValue := Trim(rowLine[col]);
    if columnValue != "" {
      var o := InferCell(lib, Lookup(columnDatatypes, col), columnValue);
      assert predicates[col] in table.columns;
      table.SetValue(row, predicates[col], o);
    }
  }

  /**
   * The column loop for one data row, the last row of the table: each field
   * within both the line and the header that is not blank after trimming is
   * set in its column; every other cell is left as it was.
   */
  method FillRow(table: PropertyTable, row: nat, rowLine: seq<string>, rowNum: nat,
                 predicates: seq<string>, columnDatatypes: map<nat, string>, lib: Library)
    requires row + 1 == |table.rows|
    requires table.rows[row].cells == RowCells(lib, predicates, columnDatatypes, rowLine, rowNum, 0)
    requires forall key :: key in predicates ==> key in table.columns
    modifies table
    ensures table.columns == old(table.columns)
    ensures |table.rows| == row + 1 && table.rows[..row] == old(table.rows)[..row]
    ensures table.rows[row] == Row(old(table.rows)[row].subject,
      RowCells(lib, predicates, columnDatatypes, rowLine, rowNum, Min(|rowLine|, |predicates|)))
  {
    hide InferCell, Trim;
    ghost var prefix := old(table.rows)[..row];
    ghost var subject := old(table.rows)[row].subject;
    var col := 0;
    while col < |rowLine| && col < |predicates|
      invariant col <= Min(|rowLine|, |predicates|)
      invariant table.columns == old(table.columns)
      invariant |table.rows| == row + 1 && table.rows[..row] == prefix
      invariant table.rows[row] == Row(subject, RowCells(lib, predicates, columnDatatypes, rowLine, rowNum, col))
    {
      SetCell(table, row, rowLine, rowNum, col, predicates, columnDatatypes, lib);
      col := col + 1;
    }
    assert col == Min(|rowLine|, |predicates|);
  }

  /** One turn of the row loop: mint the subject of the rowNum-th data row,
    * create the row, set its ordinal, then fill its columns. */
  method AddDataRow(table: PropertyTable, rowLine: seq<string>, rowNum: nat, csvFilePath: string,
                    predicates: seq<string>, columnDatatypes: map<nat, string>, lib: Library)
    requires CsvRowKey in table.columns
    requires forall key :: key in predicates ==> key in table.columns
    modifies table
    ensures table.columns == old(table.columns)
    ensures table.rows == old(table.rows) + [DataRow(lib, csvFilePath, predicates, columnDatatypes, rowLine, rowNum)]
  {
    hide InferCell, Trim;
    var subject := lib.subject(rowNum, csvFilePath);
    var row := table.CreateRow(subject);
    table.SetValue(row, CsvRowKey, OrdinalLiteral(rowNum));
    FillRow(table, row, rowLine, rowNum, predicates, columnDatatypes, lib);
    assert table.rows == old(table.rows) + [table.rows[row]];
  }

  /** The row loop of fillPropertyTable: every line after the header, in order,
    * becomes the next row, numbered from 1. */
  method FillRows(table: PropertyTable, lines: seq<seq<string>>, csvFilePath: string,
                  predicates: seq<string>, columnDatatypes: map<nat, string>, lib: Library)
    requires lines != []
    requires CsvRowKey in table.columns
    requires forall key :: key in predicates ==> key in table.columns
    modifies table
    ensures table.columns == old(table.columns)
    ensures table.rows == old(table.rows) + DataRows(lib, csvFilePath, predicates, columnDatatypes, lines[1..])
  {
    hide InferCell, Trim;
    ghost var data := lines[1..];
    var rowNum := 1;
    while rowNum < |lines|
      invariant 1 <= rowNum <= |lines|
      invariant table.columns == old(table.columns)
      invariant table.rows == old(table.rows) + DataRows(lib, csvFilePath, predicates, columnDatatypes, data[..rowNum - 1])
    {
      AddDataRow(table, lines[rowNum], rowNum, csvFilePath, predicates, columnDatatypes, lib);
      assert data[..rowNum][..rowNum - 1] == data[..rowNum - 1];
      assert data[..rowNum][rowNum - 1] == lines[rowNum];
      rowNum := rowNum + 1;
    }
    assert data[..rowNum - 1] == data;
  }

  /**
   * fillPropertyTable(table, parser, csvFilePath). A null table comes back null;
   * an empty file leaves the table as it was. Otherwise the reserved row column is
   * created, then one column per header field in order; a header field that
   * does not resolve throws, leaving the columns created so far. Then each
   * later line becomes a row, numbered from 1.
   */
  method FillPropertyTable(table: PropertyTable?, lines: seq<seq<string>>, csvFilePath: string,
                           cfg: Config, lib: Library) returns (outcome: FillOutcome)
    modifies table
    ensures table == null ==> outcome == Returned(null)
    ensures table != null && lines == [] ==>
      outcome == Returned(table) && table.columns == old(table.columns) && table.rows == old(table.rows)
    ensures table != null && lines != [] ==>
      var scan := ScanHeader(lib, cfg, csvFilePath, lines[0], |lines[0]|);
      && table.columns == old(table.columns) + [CsvRowKey] + scan.keys
      && (scan.error.Some? ==> outcome == Thrown(scan.error.value) && table.rows == old(table.rows))
      && (scan.error.None? ==>
            outcome == Returned(table)
            && table.rows == old(table.rows) + DataRows(lib, csvFilePath, scan.keys, scan.datatypes, lines[1..]))
  {
    hide InferCell, Trim, ResolveColumn;
    if table == null {
      return Returned(null);
    }
    if lines == [] {
      return Returned(table);
    }
    var row1 := lines[0];
    table.CreateColumn(CsvRowKey);
    var predicates, columnDatatypes, error := CreateHeaderColumns(table, row1, csvFilePath, cfg, lib);
    if error.Some? {
      return Thrown(error.value);
    }

    assert table.columns[|old(table.columns)|] == CsvRowKey;
    forall key | key in predicates ensures key in table.columns {
      var i :| 0 <= i < |predicates| && predicates[i] == key;
      assert table.columns[|old(table.columns)| + 1 + i] == key;
    }
    FillRows(table, lines, csvFilePath, predicates, columnDatatypes, lib);
    return Returned(table);
  }

  /** buildPropetyTableArrayImplFromCsv: pre-scan, then fill. */
  method BuildArrayTableFromCsv(lines: seq<seq<string>>, csvFilePath: string, cfg: Config, lib: Library)
    returns (outcome: FillOutcome)
    ensures PreScanCapacity(lines).None? ==> outcome == Returned(null)
    ensures PreScanCapacity(lines).Some? ==>
      var scan := ScanHeader(lib, cfg, csvFilePath, lines[0], |lines[0]|);
      && (scan.error.Some? ==> outcome == Thrown(scan.error.value))
      && (scan.error.None? ==>
            && outcome.Returned? && outcome.table != null && fresh(outcome.table)
            && outcome.table.capacity == PreScanCapacity(lines)
            && outcome.table.columns == [CsvRowKey] + scan.keys
            && outcome.table.rows == DataRows(lib, csvFilePath, scan.keys, scan.datatypes, lines[1..]))
  {
    hide InferCell, Trim, ResolveColumn;
    var table := CreateEmptyArrayTable(lines);
    if table == null {
      return Returned(null);
    }
    outcome := FillPropertyTable(table, lines, csvFilePath, cfg, lib);
  }

  /** buildPropetyTableHashMapImplFromCsv: fill a fresh hash-map table. */
  method BuildHashMapTableFromCsv(lines: seq<seq<string>>, csvFilePath: string, cfg: Config, lib: Library)
    returns (outcome: FillOutcome)
    ensures lines == [] ==>
      (outcome.Returned? && outcome.table != null && fresh(outcome.table)
       && outcome.table.columns == [] && outcome.table.rows == [])
    ensures lines != [] ==>
      var scan := ScanHeader(lib, cfg, csvFilePath, lines[0], |lines[0]|);
      && (scan.error.Some? ==> outcome == Thrown(scan.error.value))
      && (scan.error.None? ==>
            && outcome.Returned? && outcome.table != null && fresh(outcome.table)
            && outcome.table.capacity.None?
            && outcome.table.columns == [CsvRowKey] + scan.keys
            && outcome.table.rows == DataRows(lib, csvFilePath, scan.keys, scan.datatypes, lines[1..]))
  {
    hide InferCell, Trim, ResolveColumn;
    var table := new PropertyTable.HashMapBacked();
    outcome := FillPropertyTable(table, lines, csvFilePath, cfg, lib);
  }
}
