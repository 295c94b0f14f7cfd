/**
 * The library behaviour the builder calls but that is not part of this model.
 * Each call is a total function of its arguments: the builder relies on its
 * determinism and on nothing else.
 */
module Foreign {

  datatype Library = Library(
    /** `new java.net.URI(s)` returns without URISyntaxException. */
    isUri: string -> bool,
    /** IRIResolver.resolveString(s). */
    resolve: string -> string,
    /** LangCSV.toSafeLocalname(s). */
    safeLocalname: string -> string,
    /** LangCSV.caculateSubject(rowNum, csvFilePath), as the subject's URI. */
    subject: (nat, string) -> string,
    /** Double.valueOf(s) returns without NumberFormatException. */
    parsesAsDouble: string -> bool,
    /** Creating a literal of lexical form `lex` under datatype `dt` throws
      * (eager literal validation rejects an ill-formed lexical form). */
    rejectsLexical: (string, string) -> bool
  )

  /** LangCSV.CSV_ROW: the key of the reserved row-ordinal column. */
  const CsvRowKey: string := "http://w3c/future-csv-vocab/row"
}
