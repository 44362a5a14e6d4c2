/** The mini-grammar of `or_` expressions: "col.op.value,col.op.value,...". */
module OrExpression {
  import opened Wrappers
  import opened Strings

  datatype SqlError =
    | UnsafeIdentifier(name: string)
    | EmptyExpression
    | MalformedClause(piece: string)
    | UnsupportedOp(op: string)
    | NoClauses
    | MissingFilter
    | InvalidStatement

  datatype OrOp = OrEq | OrNeq | OrGt | OrGte | OrLt | OrLte | OrLike | OrILike | OrIs

  datatype OrClause = OrClause(col: string, op: OrOp, val: string)

  predicate IdentStart(c: char) { 'a' <= c <= 'z' || 'A' <= c <= 'Z' || c == '_' }
  predicate IdentChar(c: char) { IdentStart(c) || '0' <= c <= '9' }

  predicate PlainIdent(s: string)
  {
    s != "" && IdentStart(s[0]) && forall i :: 0 <= i < |s| ==> IdentChar(s[i])
  }

  /** `_IDENT.match(s)`. The `$` of the pattern also accepts one final newline. */
  predicate IsIdent(s: string)
  {
    PlainIdent(s) || (s != "" && s[|s| - 1] == '\n' && PlainIdent(s[..|s| - 1]))
  }

  function OpName(op: OrOp): string
  {
    match op
    case OrEq => "eq" case OrNeq => "neq" case OrGt => "gt" case OrGte => "gte"
    case OrLt => "lt" case OrLte => "lte" case OrLike => "like" case OrILike => "ilike"
    case OrIs => "is"
  }

  function OpNamed(name: string): Option<OrOp>
  {
    if name == "eq" then Some(OrEq) else if name == "neq" then Some(OrNeq)
    else if name == "gt" then Some(OrGt) else if name == "gte" then Some(OrGte)
    else if name == "lt" then Some(OrLt) else if name == "lte" then Some(OrLte)
    else if name == "like" then Some(OrLike) else if name == "ilike" then Some(OrILike)
    else if name == "is" then Some(OrIs) else None
  }

  /** One stripped, non-empty piece. */
  function ParsePiece(piece: string): Result<OrClause, SqlError>
  {
    match SplitTriple(piece)
    case None => Err(MalformedClause(piece))
    case Some((col, name, val)) =>
      match OpNamed(name)
      case None => Err(UnsupportedOp(name))
      case Some(op) => if IsIdent(col) then Ok(OrClause(col, op, val)) else Err(UnsafeIdentifier(col))
  }

  /** The clauses of a list of pieces, stopping at the first piece that raises. */
  function ParsePieces(pieces: seq<string>): Result<seq<OrClause>, SqlError>
  {
    if pieces == [] then Ok([]) else
    var piece := Strip(pieces[0]);
    if piece == "" then ParsePieces(pieces[1..]) else
    match ParsePiece(piece)
    case Err(e) => Err(e)
    case Ok(clause) =>
      match ParsePieces(pieces[1..])
      case Err(e) => Err(e)
      case Ok(rest) => Ok([clause] + rest)
  }

  function ParseOrExpression(expr: string): Result<seq<OrClause>, SqlError>
  {
    if expr == "" then Err(EmptyExpression) else
    match ParsePieces(Split(expr, ','))
    case Err(e) => Err(e)
    case Ok(clauses) => if clauses == [] then Err(NoClauses) else Ok(clauses)
  }

  // -------------------------------------------------------------------------
  // The printer, and when the parser inverts it
  // -------------------------------------------------------------------------

  function PrintClause(c: OrClause): string
  {
    c.col + "." + OpName(c.op) + "." + c.val
  }

  function Printed(clauses: seq<OrClause>): seq<string>
  {
    seq(|clauses|, i requires 0 <= i < |clauses| => PrintClause(clauses[i]))
  }

  function Print(clauses: seq<OrClause>): string
  {
    Join(Printed(clauses), ",")
  }

  /** The values that survive a trip through an `or_` expression. */
  predicate Survives(val: string)
  {
    ',' !in val && (val == "" || !IsSpace(val[|val| - 1]))
  }

  lemma OpNameInverse(op: OrOp)
    ensures OpNamed(OpName(op)) == Some(op)
    ensures '.' !in OpName(op) && ',' !in OpName(op)
  {
  }

  lemma IdentFacts(s: string)
    requires IsIdent(s)
    ensures s != "" && !IsSpace(s[0]) && '.' !in s && ',' !in s
  {
    var core := if PlainIdent(s) then s else s[..|s| - 1];
    assert forall i :: 0 <= i < |s| ==> s[i] == '\n' || (i < |core| && s[i] == core[i] && IdentChar(core[i]));
  }

  // ASCII letters and the underscore
  predicate Letter(c: char) { 65 <= c as int <= 90 || 97 <= c as int <= 122 || c == '_' }

  // A letter, then letters and digits
  ghost predicate Core(s: string)
  {
    s != "" && Letter(s[0]) && forall i :: 0 <= i < |s| ==> Letter(s[i]) || s[i] in "0123456789"
  }

  lemma PlainPattern(s: string)
    ensures PlainIdent(s) <==> Core(s)
  {
  }

  /** Identifiers are a letter or underscore, then letters, digits and underscores, and perhaps one
      final newline. */
  lemma IdentifierPattern(s: string)
    ensures IsIdent(s) <==> Core(s) || exists core: string :: s == core + "\n" && Core(core)
  {
    hide PlainIdent, Core;
    PlainPattern(s);
    if s != "" && s[|s| - 1] == '\n' {
      PlainPattern(s[..|s| - 1]);
      assert s == s[..|s| - 1] + "\n";
    }
    forall core: string | s == core + "\n" ensures s[..|s| - 1] == core {
    }
  }

  /** The operator names, and that there are no others. */
  lemma OperatorNames(name: string)
    ensures OpNamed("eq") == Some(OrEq) && OpNamed("neq") == Some(OrNeq) && OpNamed("gt") == Some(OrGt)
    ensures OpNamed("gte") == Some(OrGte) && OpNamed("lt") == Some(OrLt) && OpNamed("lte") == Some(OrLte)
    ensures OpNamed("like") == Some(OrLike) && OpNamed("ilike") == Some(OrILike) && OpNamed("is") == Some(OrIs)
    ensures OpNamed(name).Some? <==> name in {"eq", "neq", "gt", "gte", "lt", "lte", "like", "ilike", "is"}
  {
  }

  // A printed clause whose value was cut or trimmed to `val` parses to that value
  lemma ParsePrinted(col: string, op: OrOp, val: string)
    requires IsIdent(col)
    ensures ParsePiece(col + "." + OpName(op) + "." + val) == Ok(OrClause(col, op, val))
  {
    OpNameInverse(op);
    IdentFacts(col);
    SplitTripleOf(col, OpName(op), val);
  }

  lemma {:induction false} TrimRightAppend(a: string, b: string)
    requires a != "" && !IsSpace(a[|a| - 1])
    ensures TrimRight(a + b) == a + TrimRight(b)
    decreases |b|
  {
    var s := a + b;
    if b == "" {
      assert s == a;
    } else {
      assert s[|s| - 1] == b[|b| - 1];
      assert s[..|s| - 1] == a + b[..|b| - 1];
      if IsSpace(b[|b| - 1]) {
        TrimRightAppend(a, b[..|b| - 1]);
      }
    }
  }

  // strip() of a printed clause only touches the tail of the value
  lemma StripPrinted(col: string, op: OrOp, val: string)
    requires IsIdent(col)
    ensures Strip(col + "." + OpName(op) + "." + val) == col + "." + OpName(op) + "." + TrimRight(val)
  {
    IdentFacts(col);
    var head := col + "." + OpName(op) + ".";
    assert (head + val)[0] == col[0];
    assert TrimLeft(head + val) == head + val;
    TrimRightAppend(head, val);
  }

  lemma TrimRightFixed(val: string)
    ensures TrimRight(val) == val <==> val == "" || !IsSpace(val[|val| - 1])
  {
  }

  // The first piece of a printed list: the first clause, its value cut at its first comma
  function FirstCut(val: string): string
  {
    val[..Find(val, ',')]
  }

  lemma CutSurvives(val: string)
    ensures TrimRight(FirstCut(val)) == val <==> Survives(val)
    ensures ',' !in val ==> FirstCut(val) == val
  {
    FindNone(val, ',');
    TrimRightFixed(FirstCut(val));
  }

  lemma SurvivorHasNoComma(val: string)
    requires Survives(val)
    ensures ',' !in val
  {
  }

  lemma HeadFacts(col: string, op: OrOp)
    requires IsIdent(col)
    ensures ',' !in col + "." + OpName(op) + "."
    ensures col + "." + OpName(op) + "." != ""
  {
    IdentFacts(col);
    OpNameInverse(op);
  }

  lemma FirstPieceText(clauses: seq<OrClause>)
    requires clauses != [] && IsIdent(clauses[0].col)
    ensures
      var c := clauses[0];
      Split(Print(clauses), ',')[0] == c.col + "." + OpName(c.op) + "." + FirstCut(c.val)
  {
    var c := clauses[0];
    var head := c.col + "." + OpName(c.op) + ".";
    HeadFacts(c.col, c.op);
    CutAfter(head, c.val, ',');
    FirstPieceOfJoined(Printed(clauses), ',');
    hide OpName, Split, Find, IsIdent, Join;
    assert Printed(clauses)[0] == head + c.val;
  }

  lemma FirstPiece(clauses: seq<OrClause>)
    requires clauses != [] && IsIdent(clauses[0].col)
    ensures
      var c := clauses[0];
      var pieces := Split(Print(clauses), ',');
      && Strip(pieces[0]) != ""
      && ParsePiece(Strip(pieces[0])) == Ok(OrClause(c.col, c.op, TrimRight(FirstCut(c.val))))
  {
    hide *;
    var c := clauses[0];
    FirstPieceText(clauses);
    StripPrinted(c.col, c.op, FirstCut(c.val));
    ParsePrinted(c.col, c.op, TrimRight(FirstCut(c.val)));
  }

  // The remaining pieces, when the first value holds no comma
  lemma LaterPieces(clauses: seq<OrClause>)
    requires clauses != [] && IsIdent(clauses[0].col) && ',' !in clauses[0].val
    ensures Split(Print(clauses), ',')[1..] == if |clauses| == 1 then [] else Split(Print(clauses[1..]), ',')
  {
    hide OpName, Split, Find, IsIdent;
    var c := clauses[0];
    HeadFacts(c.col, c.op);
    assert ',' !in PrintClause(c);
    SplitJoined(Printed(clauses), ',');
    assert Printed(clauses)[1..] == Printed(clauses[1..]);
  }

  lemma {:induction false} PiecesRoundTrip(clauses: seq<OrClause>)
    requires clauses != []
    requires forall i :: 0 <= i < |clauses| ==> IsIdent(clauses[i].col)
    ensures ParsePieces(Split(Print(clauses), ',')) == Ok(clauses)
      <==> forall i :: 0 <= i < |clauses| ==> Survives(clauses[i].val)
    decreases |clauses|
  {
    hide Strip, TrimRight, Split, Print, ParsePiece, Survives, IsIdent, FirstCut;
    var c := clauses[0];
    var pieces := Split(Print(clauses), ',');
    FirstPiece(clauses);
    CutSurvives(c.val);
    if Survives(c.val) {
      SurvivorHasNoComma(c.val);
      LaterPieces(clauses);
      assert clauses == [c] + clauses[1..];
      if |clauses| > 1 {
        PiecesRoundTrip(clauses[1..]);
        assert forall i :: 0 < i < |clauses| ==> clauses[i] == clauses[1..][i - 1];
      }
    } else {
      assert OrClause(c.col, c.op, TrimRight(FirstCut(c.val))) != clauses[0];
    }
  }

  /** Printing clauses and parsing the text gives the same clauses back exactly when no value
      holds a comma or ends in white space. Dots in values are harmless. */
  lemma {:induction false} OrRoundTrip(clauses: seq<OrClause>)
    requires clauses != []
    requires forall i :: 0 <= i < |clauses| ==> IsIdent(clauses[i].col)
    ensures ParseOrExpression(Print(clauses)) == Ok(clauses)
      <==> forall i :: 0 <= i < |clauses| ==> Survives(clauses[i].val)
  {
    PiecesRoundTrip(clauses);
    FirstPiece(clauses);
    HeadFacts(clauses[0].col, clauses[0].op);
    assert Printed(clauses)[0] == PrintClause(clauses[0]);
    assert |Print(clauses)| >= |PrintClause(clauses[0])|;
  }
}
