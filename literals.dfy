/**
 * The RDF literals the builder puts into table cells, and the per-cell type
 * inference of PropertyTableBuilder.fillPropertyTable.
 */
module Literals {
  import opened Wrappers
  import opened JavaText
  import opened Foreign

  const XsdInteger: string := "http://www.w3.org/2001/XMLSchema#integer"

  /**
   * One constructor per way the builder creates a cell node:
   * NodeFactory.createLiteral(lex, datatype) gives Typed; createTypedLiteral of an
   * Integer, a Double, Boolean.FALSE or a String gives IntLit, DoubleLit,
   * BoolFalse and StrLit; NodeFactory.createLiteral(text) gives Plain.
   * A Double keeps the text it was parsed from: its numeric value is not modelled.
   */
  datatype Literal =
    | Typed(lexical: string, dtype: string)
    | IntLit(value: int)
    | DoubleLit(text: string)
    | BoolFalse
    | StrLit(text: string)
    | Plain(text: string)

  /** The reserved cell of the k-th data row: k rendered in decimal, as xsd:integer. */
  function OrdinalLiteral(k: nat): Literal {
    Typed(NatToDecimal(k), XsdInteger)
  }

  /** The ordinal cell is the integer literal of k: its digits read back as k,
    * so distinct rows get distinct ordinal cells. */
  lemma OrdinalLiteralValue(k: nat)
    ensures var lit := OrdinalLiteral(k);
      lit.Typed? && lit.dtype == XsdInteger && AllDigits(lit.lexical) && DecimalValue(lit.lexical) == k
  {
    DecimalRoundTrip(k);
  }

  /**
   * The literal for a trimmed, non-empty cell text. With an explicit datatype the
   * text is tagged verbatim; otherwise Integer, then Double, then Boolean (kept
   * only for "false") are tried in order, and a String literal is the fallback.
   * An exception while building the literal yields a plain literal of the text.
   */
  function InferCell(lib: Library, explicit: Option<string>, value: string): Literal {
    match explicit
    case Some(dt) =>
      if lib.rejectsLexical(value, dt) then Plain(value) else Typed(value, dt)
    case None =>
      match ParseInt(value)
      case Some(n) => IntLit(n)
      case None =>
        if lib.parsesAsDouble(value) then DoubleLit(value)
        else if EqualsIgnoreCaseFalse(value) then BoolFalse
        else StrLit(value)
  }

  /**
   * What a literal says about the text it was made from: the text itself for
   * the lexical kinds, the parsed value for an integer, the text a double was
   * read from, the word "false" for the boolean.
   */
  ghost predicate Denotes(lib: Library, lit: Literal, value: string) {
    match lit
    case Typed(lex, _) => lex == value
    case IntLit(n) => ParseInt(value) == Some(n)
    case DoubleLit(text) => text == value && lib.parsesAsDouble(text)
    case BoolFalse => EqualsIgnoreCaseFalse(value)
    case StrLit(text) => text == value
    case Plain(text) => text == value
  }

  /** Inference never loses the cell: every inferred literal denotes its text. */
  lemma InferDenotes(lib: Library, explicit: Option<string>, value: string)
    ensures Denotes(lib, InferCell(lib, explicit, value), value)
  {
  }

  /**
   * Without an explicit datatype the result is never a plain or explicitly typed
   * literal, an integer reading wins over every later one, and a boolean is
   * produced exactly for the word "false" in any case that is not a number.
   */
  lemma InferencePriority(lib: Library, value: string)
    ensures var lit := InferCell(lib, None, value);
      && !lit.Plain? && !lit.Typed?
      && (lit.IntLit? <==> ParseInt(value).Some?)
      && (lit.DoubleLit? <==> ParseInt(value).None? && lib.parsesAsDouble(value))
      && (lit == BoolFalse <==> ParseInt(value).None? && !lib.parsesAsDouble(value) && EqualsIgnoreCaseFalse(value))
      && (lit.StrLit? <==> ParseInt(value).None? && !lib.parsesAsDouble(value) && !EqualsIgnoreCaseFalse(value))
  {
  }

  lemma InferInteger()
    ensures forall lib: Library :: InferCell(lib, None, "42") == IntLit(42)
  {
    assert ParseInt("42") == Some(42) by {
      assert "42"[..1] == "4" && "4"[..0] == "";
      assert DecimalValue("4") == 4;
      assert DecimalValue("42") == 42;
    }
  }

  lemma InferFalse(lib: Library)
    requires !lib.parsesAsDouble("false") && !lib.parsesAsDouble("FALSE")
    ensures InferCell(lib, None, "false") == BoolFalse
    ensures InferCell(lib, None, "FALSE") == BoolFalse
  {
    assert !IsDigit('f') && !IsDigit('F');
  }

  /** The word "true" is never read as a boolean: it stays a string. */
  lemma InferTrueIsString(lib: Library)
    requires !lib.parsesAsDouble("true")
    ensures InferCell(lib, None, "true") == StrLit("true")
  {
    assert !IsDigit('t');
  }

  lemma InferWord(lib: Library)
    requires !lib.parsesAsDouble("hello")
    ensures InferCell(lib, None, "hello") == StrLit("hello")
  {
    assert !IsDigit('h');
  }
}
