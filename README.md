# PropertyTableBuilder of csv2rdf, in Dafny

This project models the conversion engine of csv2rdf. The engine is
`PropertyTableBuilder`, which reads a CSV file into a Jena property table.
Each column of the table is keyed by a URI, and each row is keyed by a subject
URI. The model covers four parts of the engine:

- **The size pre-scan** of the array-backed table
  (`createEmptyPropertyTableArrayImpl`). It counts the lines and the width of
  the first line, and asks for one extra column for the reserved row column.
  An empty file, or a file whose first line is empty, gives no table.
- **Column keys and per-column overrides** (the header loop of
  `fillPropertyTable`, and `createColumnKeyURI`).
  - A mapping entry, keyed by the 1-based column ordinal, is split on `>`. Its
    trimmed first part, when it is a valid URI, replaces the default key
    `resolve(namespace) + "#" + safeLocalname(header)`. Its trimmed second part,
    when it is a valid URI, becomes the column's explicit datatype.
  - An absent entry, an empty identifier or an entry made only of `>` makes
    the fill throw. The columns created before that stay in the table.
- **Cell type inference.** An explicit datatype tags the trimmed text
  verbatim. Otherwise `Integer.valueOf` is tried, then `Double.valueOf`, then
  `Boolean.valueOf`, which is kept only for the word `false` in any case. A
  string literal is the fallback. A failure while building the literal gives a
  plain literal.
- **The fill state machine.**
  - A null table comes back null, and an empty input leaves the table as it
    was.
  - Otherwise the reserved row column (`LangCSV.CSV_ROW`) is created first,
    then one column per header field, in order.
  - Every later line becomes a row with subject `caculateSubject(k, path)`,
    where k is the 1-based ordinal of the data row. The row's reserved cell is
    k as an `xsd:integer`.
  - A cell is set for each field that lies within both the line and the header
    and is not blank after trimming.

Module layout:

- `Wrappers`: Option and Result.
- `JavaText`: `String.trim`, `String.split` with a one-character separator,
  decimal rendering, `Integer.valueOf` and `equalsIgnoreCase("false")`, with
  the Java semantics written out.
- `Foreign`: the external calls the engine makes, gathered as a `Library`
  value, and the reserved row key.
- `Literals`: the cell literals and type inference.
- `Overrides`: column keys and mapping entries.
- `PropertyTables`: the table as a class whose columns and rows the builder
  updates in place.
- `Builder`: the pre-scan, the header loop, the row loop and the two public
  builders.

Each loop of the source is a method with loop invariants. Each method is
proved against a function: `ScanHeader` specifies the header loop, and
`RowCells` and `DataRows` specify the row loop. The lemmas state what those
functions guarantee.

Three behaviours of the code that are easy to misread. The model follows
the code in each:

- A mapping entry is read with `String.split(">")`. This splits on every
  `>` and drops trailing empty parts, and only the first two parts are read.
  `Overrides.ResolveByParts` shows that this is the same as reading the text
  before the first `>` and the text between the first and second `>`. The
  one exception is an entry made only of `>`, whose split is empty, so
  `arr[0]` throws (`Overrides.ResolveSeparatorsOnly`).
- An explicit datatype is never replaced by inference. Jena's
  `getSafeTypeByName` returns a datatype for any name, creating one for an
  unknown name, as long as Jena silently accepts unknown datatypes (its
  default). An exception is raised when that acceptance is off, and when
  Jena's eager literal validation is on (it is off by default) and the text
  is not a valid lexical form of the datatype. The catch-all
  catches it and the cell becomes a plain literal of the text. The model
  folds every such failure into `Library.rejectsLexical`
  (`Builder.ExplicitDatatypeColumn`).
- A bad identifier is not always recovered from. An identifier that is not a
  valid URI falls back to the default key. An absent mapping entry, or an
  identifier that is empty after trimming, leaves the URI null, and creating
  the column node from it throws.

## Model

Every path below is relative to the repository root.

| member | source | states |
|---|---|---|
| Builder.CountLines | src/main/java/it/cnr/istc/stlab/csv2rdf/csvgraph/PropertyTableBuilder.java:78-87 | the counting loop ends with the number of lines and the width of the first line (0 for an empty file) |
| Builder.CreateEmptyArrayTable | src/main/java/it/cnr/istc/stlab/csv2rdf/csvgraph/PropertyTableBuilder.java:76-93 | no table when there are no lines or the first line is empty; otherwise a fresh empty array table of capacity (line count, header width + 1) |
| Builder.FilledTableFitsPreScan | src/main/java/it/cnr/istc/stlab/csv2rdf/csvgraph/PropertyTableBuilder.java:84-89 | the columns the fill creates number exactly the pre-scanned capacity, and the data rows number fewer than the pre-scanned rows |
| PropertyTables.PropertyTable.HashMapBacked | src/main/java/it/cnr/istc/stlab/csv2rdf/csvgraph/PropertyTableBuilder.java:60 | a new hash-map table has no columns, no rows and no capacity |
| PropertyTables.PropertyTable.ArrayBacked | src/main/java/it/cnr/istc/stlab/csv2rdf/csvgraph/PropertyTableBuilder.java:89 | a new array table is empty and records the requested capacity |
| PropertyTables.PropertyTable.CreateColumn | src/main/java/it/cnr/istc/stlab/csv2rdf/csvgraph/PropertyTableBuilder.java:169-171 | the new column comes after every existing one; rows are untouched |
| PropertyTables.PropertyTable.CreateRow | src/main/java/it/cnr/istc/stlab/csv2rdf/csvgraph/PropertyTableBuilder.java:177-178 | a new empty row with the given subject comes last, and its index is the old row count; columns are untouched |
| PropertyTables.PropertyTable.SetValue | src/main/java/it/cnr/istc/stlab/csv2rdf/csvgraph/PropertyTableBuilder.java:228 | only the given cell of the given row changes, to the given value; it requires the key to be one of the table's columns |
| Overrides.ColumnKeyInjective | src/main/java/it/cnr/istc/stlab/csv2rdf/csvgraph/PropertyTableBuilder.java:235-238 | two default keys minted in one namespace are equal exactly when the safe local names of their headers are equal |
| Overrides.ColumnKeyIsNotRowKey | src/main/java/it/cnr/istc/stlab/csv2rdf/csvgraph/PropertyTableBuilder.java:235-238 | a default key holds '#', so it never collides with the reserved row key |
| Overrides.ResolveByParts | src/main/java/it/cnr/istc/stlab/csv2rdf/csvgraph/PropertyTableBuilder.java:130-160 | with a mapping: an absent entry fails; otherwise resolution fails exactly when the trimmed text before the first '>' is empty, and on success the key is that text if it is a URI (else the default key), and the datatype is the trimmed text between the first and second '>' when that is a non-empty URI |
| Overrides.ResolveSeparatorsOnly | src/main/java/it/cnr/istc/stlab/csv2rdf/csvgraph/PropertyTableBuilder.java:133-134 | an entry made only of '>' splits into no parts and fails at arr[0] |
| Overrides.ResolveWellFormedEntry | src/main/java/it/cnr/istc/stlab/csv2rdf/csvgraph/PropertyTableBuilder.java:130-159 | an entry "identifier>datatype" of two valid URIs without surrounding blanks gives that identifier as the key and that datatype |
| JavaText.SplitJoinRoundTrip | src/main/java/it/cnr/istc/stlab/csv2rdf/csvgraph/PropertyTableBuilder.java:133 | joining the raw split parts with the separator gives back the entry, and no part holds the separator |
| JavaText.JavaSplitParts | src/main/java/it/cnr/istc/stlab/csv2rdf/csvgraph/PropertyTableBuilder.java:133-148 | arr[0] is the text before the first '>', and arr[1] (when present) the text between the first and second '>'; an empty result means a non-empty entry with nothing before its first '>' |
| JavaText.SplitOfSeparatorsOnly | src/main/java/it/cnr/istc/stlab/csv2rdf/csvgraph/PropertyTableBuilder.java:133 | splitting a non-empty string of separators only gives no parts (trailing empty parts are dropped) |
| JavaText.TrimSpec | src/main/java/it/cnr/istc/stlab/csv2rdf/csvgraph/PropertyTableBuilder.java:185-186 | trim is empty exactly when every char is at or below U+0020; otherwise it is a slice of the input that starts and ends with a non-blank char, with only blanks cut off on either side |
| JavaText.TrimOfTrimmed | src/main/java/it/cnr/istc/stlab/csv2rdf/csvgraph/PropertyTableBuilder.java:134 | a text with no blank at either end is its own trim |
| JavaText.TrimIdempotent | src/main/java/it/cnr/istc/stlab/csv2rdf/csvgraph/PropertyTableBuilder.java:185 | trimming twice is trimming once |
| JavaText.DecimalRoundTrip | src/main/java/it/cnr/istc/stlab/csv2rdf/csvgraph/PropertyTableBuilder.java:131 | the decimal rendering of an ordinal reads back as that ordinal |
| JavaText.NatToDecimalInjective | src/main/java/it/cnr/istc/stlab/csv2rdf/csvgraph/PropertyTableBuilder.java:131 | distinct ordinals look up distinct mapping entries |
| JavaText.ParseInt | src/main/java/it/cnr/istc/stlab/csv2rdf/csvgraph/PropertyTableBuilder.java:197-205 | Integer.valueOf succeeds only on an optionally signed, non-empty run of decimal digits whose value fits in 32 bits; the result is the value of the digits after the sign, negative only after a '-' |
| JavaText.ParseIntAccepts | src/main/java/it/cnr/istc/stlab/csv2rdf/csvgraph/PropertyTableBuilder.java:197-205 | conversely, a sign of "", "+" or "-" followed by a non-empty run of digits parses to its signed value exactly when that value fits in 32 bits, and fails otherwise |
| JavaText.ParseIntPlusSign | src/main/java/it/cnr/istc/stlab/csv2rdf/csvgraph/PropertyTableBuilder.java:197-205 | "+42" parses to 42 |
| JavaText.ParseIntLeadingZeros | src/main/java/it/cnr/istc/stlab/csv2rdf/csvgraph/PropertyTableBuilder.java:197-205 | "007" parses to 7 |
| JavaText.ParseIntEdgeCases | src/main/java/it/cnr/istc/stlab/csv2rdf/csvgraph/PropertyTableBuilder.java:197-205 | "-0" parses to 0; "", "-" and "4 2" do not parse |
| JavaText.ParseIntRoundTrip | src/main/java/it/cnr/istc/stlab/csv2rdf/csvgraph/PropertyTableBuilder.java:197-205 | every 32-bit value parses back from its decimal rendering |
| Literals.OrdinalLiteralValue | src/main/java/it/cnr/istc/stlab/csv2rdf/csvgraph/PropertyTableBuilder.java:180-181 | the reserved cell of row k is an xsd:integer literal whose digits read back as k |
| Literals.InferencePriority | src/main/java/it/cnr/istc/stlab/csv2rdf/csvgraph/PropertyTableBuilder.java:197-223 | without a datatype: an integer exactly when Integer.valueOf succeeds; a double exactly when that fails and Double.valueOf succeeds; false exactly when both fail and the text equals "false" ignoring case; a string in every other case; never a plain or explicitly typed literal |
| Literals.InferDenotes | src/main/java/it/cnr/istc/stlab/csv2rdf/csvgraph/PropertyTableBuilder.java:190-227 | every inferred literal denotes its text: the text itself, its parsed integer, a parseable double, or the word false |
| Literals.InferInteger | src/main/java/it/cnr/istc/stlab/csv2rdf/csvgraph/PropertyTableBuilder.java:197-205 | "42" becomes the integer 42 |
| Literals.InferFalse | src/main/java/it/cnr/istc/stlab/csv2rdf/csvgraph/PropertyTableBuilder.java:206-211 | "false" and "FALSE" become boolean false |
| Literals.InferTrueIsString | src/main/java/it/cnr/istc/stlab/csv2rdf/csvgraph/PropertyTableBuilder.java:206-208 | "true" is discarded as a boolean and stays a string |
| Literals.InferWord | src/main/java/it/cnr/istc/stlab/csv2rdf/csvgraph/PropertyTableBuilder.java:219-223 | a word that no parser accepts becomes a string literal |
| Builder.ScanHeader | src/main/java/it/cnr/istc/stlab/csv2rdf/csvgraph/PropertyTableBuilder.java:125-172 | the header loop creates at most one key per field read, exactly one per field when nothing failed, and records datatypes only for columns it created |
| Builder.ScanHeaderErrorSticks | src/main/java/it/cnr/istc/stlab/csv2rdf/csvgraph/PropertyTableBuilder.java:125-172 | once a field has thrown, later fields change nothing |
| Builder.ScanHeaderAt | src/main/java/it/cnr/istc/stlab/csv2rdf/csvgraph/PropertyTableBuilder.java:125-171 | after a header read without error, column c has the key and explicit datatype that resolving field c (ordinal c + 1) gives |
| Builder.ScanHeaderFailure | src/main/java/it/cnr/istc/stlab/csv2rdf/csvgraph/PropertyTableBuilder.java:125-171 | a failed header read stops at the first field that does not resolve, and the error is that field's error; the fields before it resolved into exactly the keys created |
| Builder.ScanHeaderWithoutMapping | src/main/java/it/cnr/istc/stlab/csv2rdf/csvgraph/PropertyTableBuilder.java:161-167 | without a mapping the header never fails, column c gets the default key of header c, and no column has a datatype |
| Builder.DataRows | src/main/java/it/cnr/istc/stlab/csv2rdf/csvgraph/PropertyTableBuilder.java:174-231 | the row loop makes one row per data line |
| Builder.DataRowsAt | src/main/java/it/cnr/istc/stlab/csv2rdf/csvgraph/PropertyTableBuilder.java:174-231 | row j is made from data line j with ordinal j + 1 |
| Builder.RowCellsKeys | src/main/java/it/cnr/istc/stlab/csv2rdf/csvgraph/PropertyTableBuilder.java:180-229 | a row holds cells only under the reserved key and the keys of the columns it read |
| Builder.RowCellsOrdinal | src/main/java/it/cnr/istc/stlab/csv2rdf/csvgraph/PropertyTableBuilder.java:180-181 | the reserved cell holds the row ordinal, unless a header column shares its key |
| Builder.RowCellsAt | src/main/java/it/cnr/istc/stlab/csv2rdf/csvgraph/PropertyTableBuilder.java:183-228 | with distinct keys, column c holds a cell exactly when its field is not blank after trimming, and the cell is the literal inferred from the trimmed field |
| Builder.RowCellsBeyond | src/main/java/it/cnr/istc/stlab/csv2rdf/csvgraph/PropertyTableBuilder.java:183 | with distinct keys, a column that a short line does not reach holds no cell |
| Builder.DataRowNumbering | src/main/java/it/cnr/istc/stlab/csv2rdf/csvgraph/PropertyTableBuilder.java:174-181 | row j has the subject minted for ordinal j + 1 and holds that ordinal in the reserved column |
| Builder.DataRowCell | src/main/java/it/cnr/istc/stlab/csv2rdf/csvgraph/PropertyTableBuilder.java:183-229 | with distinct keys, the row of data line j holds a cell in column c exactly when the line reaches c with a non-blank field, and then holds the inferred literal |
| Builder.FilledCell | src/main/java/it/cnr/istc/stlab/csv2rdf/csvgraph/PropertyTableBuilder.java:125-229 | after a header that resolved into distinct keys other than the reserved one: column c holds the key that resolving header c gives, and the cell of line j under that key is present exactly for a non-blank field and is inferred under the column's explicit datatype |
| Builder.ExplicitDatatypeColumn | src/main/java/it/cnr/istc/stlab/csv2rdf/csvgraph/PropertyTableBuilder.java:128-195 | a column whose mapping entry is "identifier>dt" (two clean valid URIs) is keyed by the identifier, and its cell in line j is present exactly for a non-blank field and is then the trimmed field typed as dt, or a plain literal of it exactly when the literal cannot be built; never an inferred integer, double, boolean or string |
| Builder.FilledTableWithoutMapping | src/main/java/it/cnr/istc/stlab/csv2rdf/csvgraph/PropertyTableBuilder.java:161-229 | without a mapping, when the header's safe local names are distinct: column c has the default key, row j has its subject and ordinal, and its cell under that key is present exactly for a non-blank field and is inferred with no explicit datatype |
| Builder.CreateHeaderColumns | src/main/java/it/cnr/istc/stlab/csv2rdf/csvgraph/PropertyTableBuilder.java:122-172 | the header loop's keys, datatypes and error are the ones ScanHeader specifies; it creates exactly those keys as new columns in order and no rows |
| Builder.SetCell | src/main/java/it/cnr/istc/stlab/csv2rdf/csvgraph/PropertyTableBuilder.java:185-228 | one step of the column loop takes the last row's cells from the first col fields to the first col + 1 fields; other rows and the columns stay as they were |
| Builder.FillRow | src/main/java/it/cnr/istc/stlab/csv2rdf/csvgraph/PropertyTableBuilder.java:183-229 | the column loop leaves the last row holding the cells of every field within both the line and the header; other rows and the columns stay as they were |
| Builder.AddDataRow | src/main/java/it/cnr/istc/stlab/csv2rdf/csvgraph/PropertyTableBuilder.java:176-230 | one turn of the row loop appends exactly the row that DataRow specifies for this line and ordinal |
| Builder.FillRows | src/main/java/it/cnr/istc/stlab/csv2rdf/csvgraph/PropertyTableBuilder.java:174-231 | the row loop appends exactly DataRows of the lines after the header, in order; columns are untouched |
| Builder.FillPropertyTable | src/main/java/it/cnr/istc/stlab/csv2rdf/csvgraph/PropertyTableBuilder.java:101-233 | a null table gives null; empty input leaves the table unchanged; otherwise the reserved column and then the header keys are appended; a header error throws with no rows added; otherwise the data rows are appended and the table is returned |
| Builder.BuildArrayTableFromCsv | src/main/java/it/cnr/istc/stlab/csv2rdf/csvgraph/PropertyTableBuilder.java:64-74 | no table when the pre-scan finds nothing; otherwise a fresh table of the pre-scanned capacity, filled as FillPropertyTable states, or the header's error |
| Builder.BuildHashMapTableFromCsv | src/main/java/it/cnr/istc/stlab/csv2rdf/csvgraph/PropertyTableBuilder.java:59-62 | a fresh hash-map table: empty for empty input, otherwise filled as FillPropertyTable states, or the header's error |

## Left out

- Reading the file: `IO.openFile` and Jena's `CSVParser`. Tokenising, quoting
  and line splitting are not modelled. The input is the sequence of parsed
  lines, each a sequence of fields. The two passes over the file (pre-scan and
  fill) see the same lines.
- The static `NAMESPACE` and `MAPPING` fields: they are passed in as a
  `Config` value. The three-argument builder that sets them is
  `Builder.BuildArrayTableFromCsv` called with that `Config`. The hash-map
  builder and the one-argument array builder take a `Config` too, which stands
  for whatever the static fields hold at that moment.
- The calls into Jena and the JDK are fields of `Foreign.Library`, treated as
  arbitrary total functions:
  - `java.net.URI` syntax checking;
  - `IRIResolver.resolveString`;
  - `LangCSV.toSafeLocalname`;
  - `LangCSV.caculateSubject`;
  - whether `Double.valueOf` accepts a text;
  - whether building a literal throws.
  No property of their results is assumed beyond what the lemmas require.
- `Literals.InferCell`: a double keeps the text it was parsed from. Floating
  point values are not modelled.
- `JavaText.ParseInt`: only ASCII digits are accepted. `Integer.valueOf` also
  accepts other Unicode decimal digits.
- Reflection (`getDeclaredMethod`, `invoke`) is replaced by direct calls in
  the same order: Integer, then Double, then Boolean.
- The warnings printed to standard output for an invalid identifier or
  datatype are not modelled.
- `PropertyTables.PropertyTable.CreateColumn`: the Jena tables reject a
  duplicate column key, and the array table enforces its capacity. Both
  checks are not modelled: a column is always appended.
  - Because of this, the lemmas about cells assume distinct keys, and none of
    them equal to the reserved key.
  - `Builder.FilledTableFitsPreScan` shows that the fill never exceeds the
    capacity.
- `PropertyTables.PropertyTable.SetValue`: cells are a map by column key, and
  `table.getColumn` is the key itself. `ColumnImpl` and the column-value
  indexes of the Jena tables are not part of this model.
- Java `int` overflow of the row and column counters is not modelled. The
  counters are unbounded naturals.
- Resource handling: the input stream is never closed in the source either.
