/** The filter builder and its compiler: accumulated filters become a WHERE clause with
    numbered placeholders and a parameter list. */
module FilterCompiler {
  import opened Wrappers
  import Strings
  import opened OrExpression
  import opened SqlSyntax

  /** datetime.fromisoformat, left abstract: None stands for ValueError. */
  type IsoParser = string -> Option<int>

  datatype FilterOp = FCmp(cmp: CmpOp) | FIs | FIn | FLike | FILike | FContains

  datatype Filter =
    | Plain(col: string, op: FilterOp, val: Value)
    | Negated(col: string, op: FilterOp, val: Value)    // through the `not_` proxy
    | OrGroup(expr: string)

  type Compiled = Result<seq<Token>, SqlError>

  // -------------------------------------------------------------------------
  // Parameter coercion
  // -------------------------------------------------------------------------

  predicate Digit(c: char) { '0' <= c <= '9' }

  /** `_ISO_DT_PREFIX.match(s)` */
  predicate LooksIso(s: string)
  {
    && |s| >= 16
    && (forall i :: 0 <= i < 16 && i !in {4, 7, 10, 13} ==> Digit(s[i]))
    && s[4] == '-' && s[7] == '-' && s[10] == 'T' && s[13] == ':'
  }

  lemma Digits()
    ensures forall c :: Digit(c) <==> c in "0123456789"
  {
  }

  lemma IsoParts(y: string, mo: string, d: string, h: string, mi: string, rest: string)
    requires |y| == 4 && |mo| == 2 && |d| == 2 && |h| == 2 && |mi| == 2
    requires forall c :: c in y + mo + d + h + mi ==> Digit(c)
    ensures LooksIso(y + "-" + mo + "-" + d + "T" + h + ":" + mi + rest)
  {
    var all := y + mo + d + h + mi;
    assert forall i :: 0 <= i < 12 ==> all[i] in all;
    var s := y + "-" + mo + "-" + d + "T" + h + ":" + mi + rest;
    assert s[..4] == y && s[5..7] == mo && s[8..10] == d && s[11..13] == h && s[14..16] == mi;
    hide Digit;
    forall i | 0 <= i < 16 && i !in {4, 7, 10, 13} ensures Digit(s[i]) {
      assert s[i] in all;
    }
  }

  /** YYYY-MM-DDTHH:MM, with anything after it. */
  lemma IsoPattern(s: string)
    ensures LooksIso(s) <==>
      exists y: string, mo: string, d: string, h: string, mi: string, rest: string ::
        && s == y + "-" + mo + "-" + d + "T" + h + ":" + mi + rest
        && |y| == 4 && |mo| == 2 && |d| == 2 && |h| == 2 && |mi| == 2
        && forall c :: c in y + mo + d + h + mi ==> c in "0123456789"
  {
    Digits();
    hide Digit;
    if LooksIso(s) {
      var y, mo, d, h, mi, rest := s[..4], s[5..7], s[8..10], s[11..13], s[14..16], s[16..];
      assert s == y + "-" + mo + "-" + d + "T" + h + ":" + mi + rest;
    }
    forall y: string, mo: string, d: string, h: string, mi: string, rest: string |
      && s == y + "-" + mo + "-" + d + "T" + h + ":" + mi + rest
      && |y| == 4 && |mo| == 2 && |d| == 2 && |h| == 2 && |mi| == 2
      && forall c :: c in y + mo + d + h + mi ==> c in "0123456789"
      ensures LooksIso(s)
    {
      IsoParts(y, mo, d, h, mi, rest);
    }
  }

  function CoerceText(iso: IsoParser, s: string): Value
  {
    if !LooksIso(s) then Text(s) else
    match iso(Strings.Replace(s, 'Z', "+00:00"))
    case Some(t) => Time(t)
    case None => Text(s)
  }

  function Coerce(iso: IsoParser, v: Value): Value
  {
    match v
    case Uuid(hex) => CoerceText(iso, hex)
    case Json(dump) => CoerceText(iso, dump)
    case Text(s) => CoerceText(iso, s)
    case _ => v
  }

  /** UUIDs and dicts bind as their text, date-times as instants when they parse, other values as
      they are. */
  lemma Coercions(iso: IsoParser, s: string, v: Value)
    ensures Coerce(iso, Uuid(s)) == Coerce(iso, Text(s)) && Coerce(iso, Json(s)) == Coerce(iso, Text(s))
    ensures Coerce(iso, Text(s)) ==
      if LooksIso(s) && iso(Strings.Join(Strings.Split(s, 'Z'), "+00:00")).Some?
      then Time(iso(Strings.Join(Strings.Split(s, 'Z'), "+00:00")).value) else Text(s)
    ensures !v.Uuid? && !v.Json? && !v.Text? ==> Coerce(iso, v) == v
  {
    hide LooksIso;
    Strings.ReplaceIsJoin(s, 'Z', "+00:00");
  }

  function CoerceAll(iso: IsoParser, vs: seq<Value>): seq<Value>
  {
    seq(|vs|, i requires 0 <= i < |vs| => Coerce(iso, vs[i]))
  }

  // -------------------------------------------------------------------------
  // What a filter list means
  // -------------------------------------------------------------------------

  predicate MeansNull(val: Value) { val == Null || val == Text("null") }

  /** Three-valued `a IN items`: true on a match, false when no item can match,
      unknown when only a NULL stands in the way. */
  ghost function InTv(db: Db, a: Value, items: seq<Value>): Tv
  {
    if exists i :: 0 <= i < |items| && Compare(db, Eq, a, items[i]) == True then True
    else if items != [] && (a == Null || Null in items) then Unknown
    else False
  }

  /** The positive form of one filter on one row. A non-null `is_` operand only asks for
      a non-null column, whatever the operand is. */
  ghost function PlainTv(db: Db, iso: IsoParser, row: Row, col: string, op: FilterOp, val: Value): Tv
  {
    var here := Column(row, col);
    var arg := Coerce(iso, val);
    match op
    case FCmp(c) => Compare(db, c, here, arg)
    case FIs => OfBool(if MeansNull(val) then here == Null else here != Null)
    case FIn => if arg.List? then InTv(db, here, arg.items) else Unknown
    case FLike => LikeTv(db, false, here, arg)
    case FILike => LikeTv(db, true, here, arg)
    case FContains => ContainsTv(db, here, arg)
  }

  // The clauses of an or-group that compiles
  function OrClauses(expr: string): seq<OrClause>
  {
    match ParseOrExpression(expr) case Ok(clauses) => clauses case Err(_) => []
  }

  // The value that an or-clause binds
  function OrOperand(c: OrClause): Value
  {
    Text(if c.op in {OrLike, OrILike} then Strings.Replace(c.val, '*', "%") else c.val)
  }

  ghost function OrClauseTv(db: Db, iso: IsoParser, row: Row, c: OrClause): Tv
  {
    var here := Column(row, c.col);
    var arg := Coerce(iso, OrOperand(c));
    match c.op
    case OrEq => Compare(db, Eq, here, arg)
    case OrNeq => Compare(db, Neq, here, arg)
    case OrGt => Compare(db, Gt, here, arg)
    case OrGte => Compare(db, Ge, here, arg)
    case OrLt => Compare(db, Lt, here, arg)
    case OrLte => Compare(db, Le, here, arg)
    case OrLike => LikeTv(db, false, here, arg)
    case OrILike => LikeTv(db, true, here, arg)
    case OrIs => OfBool(if c.val == "null" || c.val == "NULL" then here == Null else here != Null)
  }

  ghost function SomeTv(db: Db, iso: IsoParser, row: Row, clauses: seq<OrClause>): Tv
  {
    if clauses == [] then False
    else Or(OrClauseTv(db, iso, row, clauses[0]), SomeTv(db, iso, row, clauses[1..]))
  }

  /** A negated filter is the three-valued negation of its positive form. */
  ghost function FilterTv(db: Db, iso: IsoParser, row: Row, f: Filter): Tv
  {
    match f
    case Plain(col, op, val) => PlainTv(db, iso, row, col, op, val)
    case Negated(col, op, val) => Not(PlainTv(db, iso, row, col, op, val))
    case OrGroup(expr) => SomeTv(db, iso, row, OrClauses(expr))
  }

  ghost function AllFiltersTv(db: Db, iso: IsoParser, row: Row, fs: seq<Filter>): Tv
  {
    if fs == [] then True else And(FilterTv(db, iso, row, fs[0]), AllFiltersTv(db, iso, row, fs[1..]))
  }

  /** The error that compiling a filter raises, if any. */
  function FilterError(f: Filter): Option<SqlError>
  {
    match f
    case OrGroup(expr) =>
      (match ParseOrExpression(expr) case Err(e) => Some(e) case Ok(_) => None)
    case _ => if IsIdent(f.col) then None else Some(UnsafeIdentifier(f.col))
  }

  function FirstError(fs: seq<Filter>): Option<SqlError>
  {
    if fs == [] then None else
    var e := FirstError(fs[..|fs| - 1]);
    if e == None then FilterError(fs[|fs| - 1]) else e
  }

  // -------------------------------------------------------------------------
  // The emitted text
  // -------------------------------------------------------------------------

  function LastOperand(c: OrClause): seq<Value> { if c.op == OrIs then [] else [OrOperand(c)] }

  function OrOperands(clauses: seq<OrClause>): seq<Value>
  {
    if clauses == [] then []
    else OrOperands(clauses[..|clauses| - 1]) + LastOperand(clauses[|clauses| - 1])
  }

  // The values that one filter binds, in order, before coercion
  function Operands(f: Filter): seq<Value>
  {
    match f
    case OrGroup(expr) =>
      OrOperands(OrClauses(expr))
    case _ => if f.op == FIs then [] else [f.val]
  }

  function AllOperands(fs: seq<Filter>): seq<Value>
  {
    if fs == [] then [] else AllOperands(fs[..|fs| - 1]) + Operands(fs[|fs| - 1])
  }

  // The condition that the text of one filter stands for, when its first placeholder is $k
  function Condition(f: Filter, k: nat): Cond
    requires !f.OrGroup?
  {
    var positive := f.Plain?;
    match f.op
    case FCmp(c) => if positive then CompareWith(f.col, c, k) else Negation(CompareWith(f.col, c, k))
    case FIs => NullTest(f.col, MeansNull(f.val) == positive)
    case FIn => if positive then AnyOf(f.col, Eq, k) else AllOf(f.col, Neq, k)
    case FLike => Matches(f.col, false, positive, k)
    case FILike => Matches(f.col, true, positive, k)
    case FContains => if positive then Contains(f.col, k) else Negation(Contains(f.col, k))
  }

  /** `_OR_OP_TO_SQL` for the comparison operators */
  function SqlOp(op: OrOp): CmpOp
    requires op !in {OrIs, OrLike, OrILike}
  {
    match op
    case OrEq => Eq case OrNeq => Neq case OrGt => Gt case OrGte => Ge case OrLt => Lt case OrLte => Le
  }

  function OrCondition(c: OrClause, k: nat): (d: Cond)
    ensures d.NullTest? || d.Matches? || d.CompareWith?
  {
    match c.op
    case OrIs => NullTest(c.col, c.val == "null" || c.val == "NULL")
    case OrLike => Matches(c.col, false, true, k)
    case OrILike => Matches(c.col, true, true, k)
    case _ => CompareWith(c.col, SqlOp(c.op), k)
  }

  /** How a condition is written down. */
  function Written(c: Cond): seq<Token>
    requires !c.Conjunction? && !c.Disjunction?
    requires c.Negation? ==> c.c.CompareWith? || c.c.Contains?
  {
    match c
    case CompareWith(col, op, k) => [Name(col), Op(op), Param(k)]
    case NullTest(col, isNull) => if isNull then [Name(col), KwIs, KwNull] else [Name(col), KwIs, KwNot, KwNull]
    case AnyOf(col, op, k) => [Name(col), Op(op), KwAny, LParen, Param(k), RParen]
    case AllOf(col, op, k) => [Name(col), Op(op), KwAll, LParen, Param(k), RParen]
    case Matches(col, fold, positive, k) =>
      var like := if fold then KwILike else KwLike;
      if positive then [Name(col), like, Param(k)] else [Name(col), KwNot, like, Param(k)]
    case Contains(col, k) => [Name(col), ContainsOp, Param(k)]
    case Negation(d) => [KwNot, LParen] + Written(d) + [RParen]
  }

  function OrParts(clauses: seq<OrClause>, k: nat): (parts: seq<seq<Token>>)
    ensures |parts| == |clauses|
  {
    if clauses == [] then [] else
    var front := clauses[..|clauses| - 1];
    OrParts(front, k) + [Written(OrCondition(clauses[|clauses| - 1], k + |OrOperands(front)|))]
  }

  function ClauseTokens(f: Filter, k: nat): seq<Token>
  {
    match f
    case OrGroup(expr) =>
      [LParen] + Strings.Join(OrParts(OrClauses(expr), k), [KwOr]) + [RParen]
    case _ => Written(Condition(f, k))
  }

  function Clauses(fs: seq<Filter>, k: nat): (cs: seq<seq<Token>>)
    ensures |cs| == |fs|
  {
    if fs == [] then [] else
    var front := fs[..|fs| - 1];
    Clauses(front, k) + [ClauseTokens(fs[|fs| - 1], k + |AllOperands(front)|)]
  }

  /** The text of `_where` when `bound` parameters are already in use. */
  function WhereTokens(fs: seq<Filter>, bound: nat): seq<Token>
  {
    if fs == [] then [] else [KwWhere] + Strings.Join(Clauses(fs, bound + 1), [KwAnd])
  }

  // -------------------------------------------------------------------------
  // The builder and the compiler
  // -------------------------------------------------------------------------

  /** `_SQL`: the parameters bound so far. */
  class Sql {
    const iso: IsoParser
    var params: seq<Value>

    constructor (iso: IsoParser)
      ensures params == [] && this.iso == iso
    {
      this.iso := iso;
      params := [];
    }

    /** Binds a value and names its placeholder. */
    method Add(value: Value) returns (placeholder: Token)
      modifies this
      ensures params == old(params) + [Coerce(iso, value)]
      ensures placeholder == Param(|old(params)| + 1)
    {
      var v := value;
      if v.Uuid? {
        v := Text(v.hex);
      } else if v.Json? {
        v := Text(v.dump);
      }
      if v.Text? && LooksIso(v.s) {
        match iso(Strings.Replace(v.s, 'Z', "+00:00")) {
          case Some(t) => v := Time(t);
          case None =>
        }
      }
      params := params + [v];
      placeholder := Param(|params|);
    }
  }

  // The parameters after binding more values
  function Bind(iso: IsoParser, params: seq<Value>, operands: seq<Value>): seq<Value>
  {
    params + CoerceAll(iso, operands)
  }

  lemma BindMore(iso: IsoParser, params: seq<Value>, a: seq<Value>, b: seq<Value>)
    ensures Bind(iso, params, a + b) == Bind(iso, Bind(iso, params, a), b)
    ensures |Bind(iso, params, a)| == |params| + |a|
  {
    assert CoerceAll(iso, a + b) == CoerceAll(iso, a) + CoerceAll(iso, b);
  }

  lemma BindOne(iso: IsoParser, params: seq<Value>, v: Value)
    ensures Bind(iso, params, [v]) == params + [Coerce(iso, v)]
    ensures Bind(iso, params, []) == params
  {
  }

  // Clauses already compiled, followed by what the remaining pieces give
  function Prepend(done: seq<OrClause>, rest: Result<seq<OrClause>, SqlError>): Result<seq<OrClause>, SqlError>
  {
    match rest case Err(e) => Err(e) case Ok(more) => Ok(done + more)
  }

  lemma PrependNothing(rest: Result<seq<OrClause>, SqlError>)
    ensures Prepend([], rest) == rest
  {
    if rest.Ok? {
      assert [] + rest.value == rest.value;
    }
  }

  lemma PrependMore(done: seq<OrClause>, c: OrClause, rest: Result<seq<OrClause>, SqlError>)
    ensures Prepend(done + [c], rest) == Prepend(done, Prepend([c], rest))
  {
    if rest.Ok? {
      assert done + [c] + rest.value == done + ([c] + rest.value);
    }
  }

  // Where the loop of `_compile_or` starts, steps and ends
  lemma OrStart(iso: IsoParser, was: seq<Value>, pieces: seq<string>)
    ensures OrParts([], |was| + 1) == [] && Bind(iso, was, OrOperands([])) == was
    ensures ParsePieces(pieces) == Prepend([], ParsePieces(pieces[0..]))
  {
    assert pieces[0..] == pieces;
    PrependNothing(ParsePieces(pieces));
  }

  lemma ParsePiecesStep(pieces: seq<string>, i: nat, done: seq<OrClause>)
    requires i < |pieces|
    ensures
      var piece := Strings.Strip(pieces[i]);
      var rest := ParsePieces(pieces[i + 1..]);
      Prepend(done, ParsePieces(pieces[i..])) ==
        if piece == "" then Prepend(done, rest)
        else match ParsePiece(piece)
          case Err(e) => Err(e)
          case Ok(c) => Prepend(done + [c], rest)
  {
    assert pieces[i..][0] == pieces[i] && pieces[i..][1..] == pieces[i + 1..];
    var piece := Strings.Strip(pieces[i]);
    if piece != "" && ParsePiece(piece).Ok? {
      PrependMore(done, ParsePiece(piece).value, ParsePieces(pieces[i + 1..]));
    }
  }

  lemma OrEnd(pieces: seq<string>, done: seq<OrClause>, k: nat)
    ensures Prepend(done, ParsePieces(pieces[|pieces|..])) == Ok(done)
    ensures OrParts(done, k) == [] <==> done == []
  {
    assert pieces[|pieces|..] == [];
    assert done + [] == done;
  }

  // An or-group in terms of its pieces
  lemma OrGroupFacts(expr: string, k: nat)
    ensures expr == "" ==> FilterError(OrGroup(expr)) == Some(EmptyExpression)
    ensures expr != "" ==>
      var parsed := ParsePieces(Strings.Split(expr, ','));
      && (parsed.Err? ==> FilterError(OrGroup(expr)) == Some(parsed.error))
      && (parsed == Ok([]) ==> FilterError(OrGroup(expr)) == Some(NoClauses))
      && (parsed.Ok? && parsed.value != [] ==>
        && FilterError(OrGroup(expr)) == None
        && ClauseTokens(OrGroup(expr), k) == [LParen] + Strings.Join(OrParts(parsed.value, k), [KwOr]) + [RParen]
        && Operands(OrGroup(expr)) == OrOperands(parsed.value))
  {
  }

  // Where the loop of `_where` starts and ends
  lemma WhereEnds(iso: IsoParser, was: seq<Value>, fs: seq<Filter>)
    ensures FirstError(fs[..0]) == None && Clauses(fs[..0], |was| + 1) == []
    ensures Bind(iso, was, AllOperands(fs[..0])) == was
    ensures WhereTokens(fs, |was|) ==
      if Clauses(fs, |was| + 1) == [] then [] else [KwWhere] + Strings.Join(Clauses(fs, |was| + 1), [KwAnd])
  {
  }

  lemma OneMoreClause(iso: IsoParser, was: seq<Value>, done: seq<OrClause>, c: OrClause, k: nat)
    ensures OrOperands(done + [c]) == OrOperands(done) + LastOperand(c)
    ensures OrParts(done + [c], k) == OrParts(done, k) + [Written(OrCondition(c, k + |OrOperands(done)|))]
    ensures Bind(iso, was, OrOperands(done + [c])) == Bind(iso, Bind(iso, was, OrOperands(done)), LastOperand(c))
    ensures |Bind(iso, was, OrOperands(done))| == |was| + |OrOperands(done)|
    ensures Bind(iso, Bind(iso, was, OrOperands(done)), [OrOperand(c)]) == Bind(iso, was, OrOperands(done)) + [Coerce(iso, OrOperand(c))]
    ensures Bind(iso, Bind(iso, was, OrOperands(done)), []) == Bind(iso, was, OrOperands(done))
  {
    hide Written, OrCondition, LastOperand, OrOperand, Coerce;
    assert (done + [c])[..|done|] == done;
    BindMore(iso, was, OrOperands(done), LastOperand(c));
    BindOne(iso, Bind(iso, was, OrOperands(done)), OrOperand(c));
  }

  lemma OneMoreFilter(iso: IsoParser, was: seq<Value>, front: seq<Filter>, f: Filter)
    ensures AllOperands(front + [f]) == AllOperands(front) + Operands(f)
    ensures Bind(iso, was, AllOperands(front + [f])) == Bind(iso, Bind(iso, was, AllOperands(front)), Operands(f))
    ensures |Bind(iso, was, AllOperands(front))| == |was| + |AllOperands(front)|
  {
    assert (front + [f])[..|front|] == front;
    BindMore(iso, was, AllOperands(front), Operands(f));
  }

  lemma OneMoreText(front: seq<Filter>, f: Filter, k: nat)
    ensures FirstError(front) == None ==> FirstError(front + [f]) == FilterError(f)
    ensures Clauses(front + [f], k) == Clauses(front, k) + [ClauseTokens(f, k + |AllOperands(front)|)]
  {
    hide ClauseTokens, FilterError, Operands;
    assert (front + [f])[..|front|] == front;
  }

  // The first filter that does not compile decides the error
  lemma {:induction false} FirstErrorAt(fs: seq<Filter>, n: nat)
    requires n <= |fs| && FirstError(fs[..n]) != None
    ensures FirstError(fs) == FirstError(fs[..n])
  {
    if n < |fs| {
      assert fs[..|fs| - 1][..n] == fs[..n];
      FirstErrorAt(fs[..|fs| - 1], n);
    } else {
      assert fs[..n] == fs;
    }
  }

  class PostgresTable {
    var filters: seq<Filter>

    constructor ()
      ensures filters == []
    {
      filters := [];
    }

    /** Every builder method (`eq`, `in_`, `not_.like`, `or_`, ...) appends one filter. */
    method AddFilter(f: Filter)
      modifies this
      ensures filters == old(filters) + [f]
    {
      filters := filters + [f];
    }

    // One non-empty piece of an or-expression
    method OrPiece(piece: string, sql: Sql) returns (r: Compiled)
      modifies sql
      ensures filters == old(filters)
      ensures match ParsePiece(piece)
        case Err(e) => r == Err(e)
        case Ok(c) =>
          && r == Ok(Written(OrCondition(c, |old(sql.params)| + 1)))
          && sql.params == Bind(sql.iso, old(sql.params), LastOperand(c))
    {
      var triple := Strings.SplitTriple(piece);
      if triple.None? {
        return Err(MalformedClause(piece));
      }
      var (col, name, raw) := triple.value;
      var op := OpNamed(name);
      if op.None? {
        return Err(UnsupportedOp(name));
      }
      if !IsIdent(col) {
        return Err(UnsafeIdentifier(col));
      }
      BindOne(sql.iso, sql.params, OrOperand(OrClause(col, op.value, raw)));
      if op.value == OrIs {
        if raw == "null" || raw == "NULL" {
          return Ok([Name(col), KwIs, KwNull]);
        } else {
          return Ok([Name(col), KwIs, KwNot, KwNull]);
        }
      }
      var val := raw;
      if op.value in {OrLike, OrILike} {
        val := Strings.Replace(val, '*', "%");
      }
      var placeholder := sql.Add(Text(val));
      var sqlOp :=
        if op.value == OrLike then KwLike else if op.value == OrILike then KwILike else Op(SqlOp(op.value));
      r := Ok([Name(col), sqlOp, placeholder]);
    }

    /** `_compile_or` */
    method CompileOr(expr: string, sql: Sql) returns (r: Compiled)
      modifies sql
      ensures filters == old(filters)
      ensures match FilterError(OrGroup(expr))
        case Some(e) => r == Err(e)
        case None =>
          && r == Ok(ClauseTokens(OrGroup(expr), |old(sql.params)| + 1))
          && sql.params == Bind(sql.iso, old(sql.params), Operands(OrGroup(expr)))
    {
      hide *;
      ghost var was := sql.params;
      OrGroupFacts(expr, |was| + 1);
      if expr == "" {
        return Err(EmptyExpression);
      }
      var pieces := Strings.Split(expr, ',');
      var parts: seq<seq<Token>> := [];
      ghost var done: seq<OrClause> := [];
      var i := 0;
      OrStart(sql.iso, was, pieces);
      while i < |pieces|
        invariant 0 <= i <= |pieces|
        invariant parts == OrParts(done, |was| + 1)
        invariant sql.params == Bind(sql.iso, was, OrOperands(done))
        invariant ParsePieces(pieces) == Prepend(done, ParsePieces(pieces[i..]))
      {
        var piece := Strings.Strip(pieces[i]);
        ParsePiecesStep(pieces, i, done);
        i := i + 1;
        if piece == "" {
          continue;
        }
        var part := OrPiece(piece, sql);
        if part.Err? {
          return part;
        }
        OneMoreClause(sql.iso, was, done, ParsePiece(piece).value, |was| + 1);
        parts := parts + [part.value];
        done := done + [ParsePiece(piece).value];
      }
      OrEnd(pieces, done, |was| + 1);
      if parts == [] {
        return Err(NoClauses);
      }
      r := Ok([LParen] + Strings.Join(parts, [KwOr]) + [RParen]);
    }

    /** `_where` */
    method Where(sql: Sql) returns (r: Compiled)
      modifies sql
      ensures filters == old(filters)
      ensures match FirstError(filters)
        case Some(e) => r == Err(e)
        case None =>
          && r == Ok(WhereTokens(filters, |old(sql.params)|))
          && sql.params == Bind(sql.iso, old(sql.params), AllOperands(filters))
    {
      hide *;
      var clauses: seq<seq<Token>> := [];
      ghost var was := sql.params;
      var i := 0;
      WhereEnds(sql.iso, was, filters);
      while i < |filters|
        invariant 0 <= i <= |filters| && filters == old(filters)
        invariant FirstError(filters[..i]) == None
        invariant clauses == Clauses(filters[..i], |was| + 1)
        invariant sql.params == Bind(sql.iso, was, AllOperands(filters[..i]))
      {
        var f := filters[i];
        assert filters[..i + 1] == filters[..i] + [f];
        OneMoreFilter(sql.iso, was, filters[..i], f);
        OneMoreText(filters[..i], f, |was| + 1);
        var clause := Clause(f, sql);
        if clause.Err? {
          FirstErrorAt(filters, i + 1);
          return clause;
        }
        clauses := clauses + [clause.value];
        i := i + 1;
      }
      assert filters[..i] == filters;
      r := Ok(if clauses == [] then [] else [KwWhere] + Strings.Join(clauses, [KwAnd]));
    }

    // One turn of the `_where` loop
    method Clause(f: Filter, sql: Sql) returns (r: Compiled)
      modifies sql
      ensures filters == old(filters)
      ensures match FilterError(f)
        case Some(e) => r == Err(e)
        case None =>
          && r == Ok(ClauseTokens(f, |old(sql.params)| + 1))
          && sql.params == Bind(sql.iso, old(sql.params), Operands(f))
    {
      if f.OrGroup? {
        r := CompileOr(f.expr, sql);
      } else if !IsIdent(f.col) {
        r := Err(UnsafeIdentifier(f.col));
      } else {
        var clause := PlainClause(f, sql);
        r := Ok(clause);
      }
    }

    // The per-operator branches of `_where`
    method PlainClause(f: Filter, sql: Sql) returns (clause: seq<Token>)
      requires !f.OrGroup? && IsIdent(f.col)
      modifies sql
      ensures filters == old(filters)
      ensures clause == ClauseTokens(f, |old(sql.params)| + 1)
      ensures sql.params == Bind(sql.iso, old(sql.params), Operands(f))
    {
      var name := Name(f.col);
      BindOne(sql.iso, sql.params, f.val);
      if f.op == FIs {
        var toNull := if f.Plain? then MeansNull(f.val) else !MeansNull(f.val);
        clause := if toNull then [name, KwIs, KwNull] else [name, KwIs, KwNot, KwNull];
        return;
      }
      var p := sql.Add(f.val);
      match f.op {
        case FIn => clause := if f.Plain? then [name, Op(Eq), KwAny, LParen, p, RParen] else [name, Op(Neq), KwAll, LParen, p, RParen];
        case FLike => clause := if f.Plain? then [name, KwLike, p] else [name, KwNot, KwLike, p];
        case FILike => clause := if f.Plain? then [name, KwILike, p] else [name, KwNot, KwILike, p];
        case FContains => clause := if f.Plain? then [name, ContainsOp, p] else [KwNot, LParen] + [name, ContainsOp, p] + [RParen];
        case FCmp(c) => clause := if f.Plain? then [name, Op(c), p] else [KwNot, LParen] + [name, Op(c), p] + [RParen];
      }
      assert clause == Written(Condition(f, p.k));
    }
  }
}
