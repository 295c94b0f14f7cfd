/**
 * Column keys: the default key minted from a header (createColumnKeyURI) and the
 * per-column override read from the mapping configuration, whose entries are
 * "identifier>datatype" strings keyed by the 1-based column ordinal.
 */
module Overrides {
  import opened Wrappers
  import opened JavaText
  import opened Foreign

  /** createColumnKeyURI(namespace, column). */
  function ColumnKey(lib: Library, namespace: string, column: string): string {
    lib.resolve(namespace) + "#" + lib.safeLocalname(column)
  }

  /** Two default keys in one namespace agree exactly when their local names do. */
  lemma ColumnKeyInjective(lib: Library, namespace: string, a: string, b: string)
    ensures ColumnKey(lib, namespace, a) == ColumnKey(lib, namespace, b)
        <==> lib.safeLocalname(a) == lib.safeLocalname(b)
  {
    var prefix := lib.resolve(namespace) + "#";
    if ColumnKey(lib, namespace, a) == ColumnKey(lib, namespace, b) {
      assert lib.safeLocalname(a) == ColumnKey(lib, namespace, a)[|prefix|..];
      assert lib.safeLocalname(b) == ColumnKey(lib, namespace, b)[|prefix|..];
    }
  }

  /** A default key always holds a '#', which the reserved row key does not. */
  lemma ColumnKeyIsNotRowKey(lib: Library, namespace: string, column: string)
    ensures ColumnKey(lib, namespace, column) != CsvRowKey
  {
    var key := ColumnKey(lib, namespace, column);
    assert key[|lib.resolve(namespace)|] == '#';
    assert '#' !in CsvRowKey;
  }

  /** Why resolving a column throws. */
  datatype ColumnError =
      /** NodeFactory.createURI(null): with a mapping, no entry for the ordinal
        * or an empty identifier part. */
    | NullColumnUri(ordinal: nat)
      /** arr[0] of an empty split: the entry holds nothing but '>'. */
    | EmptySplit(ordinal: nat)

  datatype ResolvedColumn = ResolvedColumn(key: string, dtype: Option<string>)

  /** The trimmed datatype part of a split entry, when there is one and it is a URI. */
  function DatatypeOverride(lib: Library, parts: seq<string>): Option<string> {
    if |parts| > 1 && Trim(parts[1]) != "" && lib.isUri(Trim(parts[1])) then Some(Trim(parts[1]))
    else None
  }

  /**
   * The key and the explicit datatype of the column with the given 1-based
   * ordinal and header text (the body of the header loop of fillPropertyTable).
   */
  function ResolveColumn(lib: Library, namespace: string, mapping: Option<map<string, string>>,
                         ordinal: nat, column: string): Result<ResolvedColumn, ColumnError>
  {
    match mapping
    case None => Success(ResolvedColumn(ColumnKey(lib, namespace, column), None))
    case Some(m) =>
      var name := NatToDecimal(ordinal);
      if name !in m then Failure(NullColumnUri(ordinal))
      else
        var parts := JavaSplit(m[name], '>');
        if |parts| == 0 then Failure(EmptySplit(ordinal))
        else
          var identifier := Trim(parts[0]);
          if identifier == "" then Failure(NullColumnUri(ordinal))
          else
            var key := if lib.isUri(identifier) then identifier else ColumnKey(lib, namespace, column);
            Success(ResolvedColumn(key, DatatypeOverride(lib, parts)))
  }

  /**
   * Resolution read off the entry text directly, without the split: the
   * identifier is the trimmed text before the first '>', the datatype the
   * trimmed text between the first and the second '>', anything later is
   * ignored. An absent entry or an empty identifier makes the column fail; a
   * valid identifier is the key verbatim, an invalid one gives the default key;
   * a datatype is recorded only when it is a non-empty valid URI.
   */
  lemma {:induction false} ResolveByParts(lib: Library, namespace: string, m: map<string, string>,
                                          ordinal: nat, column: string)
    ensures var r := ResolveColumn(lib, namespace, Some(m), ordinal, column);
      var name := NatToDecimal(ordinal);
      && (name !in m ==> r == Failure(NullColumnUri(ordinal)))
      && (name in m ==>
            var identifier := Trim(FirstPart(m[name], '>'));
            var dt := Trim(SecondPart(m[name], '>'));
            && (r.Failure? <==> identifier == "")
            && (r.Success? ==>
                  && r.value.key == (if lib.isUri(identifier) then identifier else ColumnKey(lib, namespace, column))
                  && r.value.dtype == (if dt != "" && lib.isUri(dt) then Some(dt) else None)))
  {
    var name := NatToDecimal(ordinal);
    if name in m {
      var entry := m[name];
      JavaSplitParts(entry, '>');
      var parts := JavaSplit(entry, '>');
      if |parts| == 0 {
        assert Trim(FirstPart(entry, '>')) == "";
      }
    }
  }

  /** An entry made only of '>' characters fails at arr[0]. */
  lemma ResolveSeparatorsOnly(lib: Library, namespace: string, m: map<string, string>,
                              ordinal: nat, column: string)
    requires NatToDecimal(ordinal) in m
    requires var entry := m[NatToDecimal(ordinal)];
      entry != "" && forall i :: 0 <= i < |entry| ==> entry[i] == '>'
    ensures ResolveColumn(lib, namespace, Some(m), ordinal, column) == Failure(EmptySplit(ordinal))
  {
    SplitOfSeparatorsOnly(m[NatToDecimal(ordinal)], '>');
  }

  /**
   * An entry "identifier>datatype" whose two halves are valid URIs without
   * surrounding blanks: the identifier becomes the column key verbatim and the
   * datatype is recorded for the column.
   */
  lemma ResolveWellFormedEntry(lib: Library, namespace: string, m: map<string, string>,
                               ordinal: nat, column: string, identifier: string, dt: string)
    requires '>' !in identifier && '>' !in dt
    requires identifier != "" && !IsTrimmable(identifier[0]) && !IsTrimmable(identifier[|identifier| - 1])
    requires dt != "" && !IsTrimmable(dt[0]) && !IsTrimmable(dt[|dt| - 1])
    requires lib.isUri(identifier) && lib.isUri(dt)
    requires NatToDecimal(ordinal) in m && m[NatToDecimal(ordinal)] == identifier + ">" + dt
    ensures ResolveColumn(lib, namespace, Some(m), ordinal, column)
         == Success(ResolvedColumn(identifier, Some(dt)))
  {
    PartsOfJoined(identifier, dt, '>');
    ResolveByParts(lib, namespace, m, ordinal, column);
    TrimOfTrimmed(identifier);
    TrimOfTrimmed(dt);
  }

  /** The parts of `a + sep + b` when neither holds the separator. */
  lemma {:induction false} PartsOfJoined(a: string, b: string, sep: char)
    requires sep !in a && sep !in b
    ensures FirstPart(a + [sep] + b, sep) == a
    ensures SecondPart(a + [sep] + b, sep) == b
  {
    if a == [] {
      assert (a + [sep] + b)[1..] == b;
      FirstPartWithoutSep(b, sep);
    } else {
      assert (a + [sep] + b)[1..] == a[1..] + [sep] + b;
      PartsOfJoined(a[1..], b, sep);
    }
  }

  lemma {:induction false} FirstPartWithoutSep(s: string, sep: char)
    requires sep !in s
    ensures FirstPart(s, sep) == s
  {
    if s != [] {
      FirstPartWithoutSep(s[1..], sep);
    }
  }
}
