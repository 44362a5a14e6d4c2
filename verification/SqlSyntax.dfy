/** The part of SQL that the filter compiler emits: values, three-valued logic, tokens,
    a parser with SQL's operator precedence, and the meaning of a parsed condition. */
module SqlSyntax {

  // -------------------------------------------------------------------------
  // Values and three-valued logic (section 6.34 of ISO/IEC 9075-2:2003)
  // -------------------------------------------------------------------------

  datatype Value =
    | Null
    | Bool(b: bool)
    | Int(i: int)
    | Text(s: string)
    | Uuid(hex: string)
    | Json(dump: string)     // a dict, represented by its json.dumps text
    | Time(instant: int)
    | List(items: seq<Value>)

  datatype Tv = False | Unknown | True

  function Not(a: Tv): Tv
  {
    match a case False => True case Unknown => Unknown case True => False
  }

  function And(a: Tv, b: Tv): Tv
  {
    if a == False || b == False then False
    else if a == True && b == True then True
    else Unknown
  }

  function Or(a: Tv, b: Tv): Tv
  {
    if a == True || b == True then True
    else if a == False && b == False then False
    else Unknown
  }

  function OfBool(b: bool): Tv { if b then True else False }

  type Row = map<string, Value>

  // A column that was never supplied holds NULL.
  function Column(row: Row, col: string): Value
  {
    if col in row then row[col] else Null
  }

  datatype CmpOp = Eq | Neq | Lt | Le | Gt | Ge

  /** What the database does with two non-null operands; every theorem holds for any choice. */
  datatype Db = Db(
    equal: (Value, Value) -> bool,
    less: (Value, Value) -> bool,
    like: (Value, Value) -> bool,
    ilike: (Value, Value) -> bool,
    contains: (Value, Value) -> bool)

  function Compare(db: Db, op: CmpOp, a: Value, b: Value): Tv
  {
    if a == Null || b == Null then Unknown else
    match op
    case Eq => OfBool(db.equal(a, b))
    case Neq => OfBool(!db.equal(a, b))
    case Lt => OfBool(db.less(a, b))
    case Le => OfBool(db.less(a, b) || db.equal(a, b))
    case Gt => OfBool(db.less(b, a))
    case Ge => OfBool(db.less(b, a) || db.equal(a, b))
  }

  function LikeTv(db: Db, fold: bool, a: Value, b: Value): Tv
  {
    if a == Null || b == Null then Unknown
    else OfBool(if fold then db.ilike(a, b) else db.like(a, b))
  }

  function ContainsTv(db: Db, a: Value, b: Value): Tv
  {
    if a == Null || b == Null then Unknown else OfBool(db.contains(a, b))
  }

  /** The truth tables: conjunction and disjunction are dual, and Unknown only gives way to False,
      or to True. */
  lemma TruthTables(a: Tv, b: Tv)
    ensures Not(True) == False && Not(Unknown) == Unknown && Not(Not(a)) == a
    ensures And(True, a) == a && And(False, a) == False && And(a, a) == a && And(a, b) == And(b, a)
    ensures Or(a, b) == Not(And(Not(a), Not(b)))
    ensures OfBool(true) == True && OfBool(false) == False
  {
  }

  /** Comparisons with NULL are unknown; the others are decided by equality and order, and come in
      opposite and mirrored pairs. */
  lemma Comparisons(db: Db, a: Value, b: Value)
    ensures forall op :: Compare(db, op, a, b) == Unknown <==> a == Null || b == Null
    ensures a != Null && b != Null ==>
      && (Compare(db, Eq, a, b) == True <==> db.equal(a, b))
      && (Compare(db, Lt, a, b) == True <==> db.less(a, b))
    ensures Compare(db, Neq, a, b) == Not(Compare(db, Eq, a, b))
    ensures Compare(db, Le, a, b) == Or(Compare(db, Lt, a, b), Compare(db, Eq, a, b))
    ensures Compare(db, Gt, a, b) == Compare(db, Lt, b, a)
    ensures Compare(db, Ge, a, b) == Or(Compare(db, Gt, a, b), Compare(db, Eq, a, b))
  {
  }

  /** Pattern and containment tests are unknown on NULL and decided by the database otherwise. */
  lemma PatternTests(db: Db, a: Value, b: Value)
    ensures LikeTv(db, false, a, b) == Unknown <==> a == Null || b == Null
    ensures LikeTv(db, true, a, b) == Unknown <==> a == Null || b == Null
    ensures ContainsTv(db, a, b) == Unknown <==> a == Null || b == Null
    ensures a != Null && b != Null ==>
      && (LikeTv(db, false, a, b) == True <==> db.like(a, b))
      && (LikeTv(db, true, a, b) == True <==> db.ilike(a, b))
      && (ContainsTv(db, a, b) == True <==> db.contains(a, b))
  {
  }

  // -------------------------------------------------------------------------
  // Conditions
  // -------------------------------------------------------------------------

  // `param` is a placeholder number: $1 is the first parameter
  datatype Cond =
    | CompareWith(col: string, op: CmpOp, param: nat)
    | NullTest(col: string, isNull: bool)
    | AnyOf(col: string, op: CmpOp, param: nat)
    | AllOf(col: string, op: CmpOp, param: nat)
    | Matches(col: string, fold: bool, positive: bool, param: nat)
    | Contains(col: string, param: nat)
    | Negation(c: Cond)
    | Conjunction(a: Cond, b: Cond)
    | Disjunction(a: Cond, b: Cond)

  function Argument(params: seq<Value>, k: nat): Value
  {
    if 1 <= k <= |params| then params[k - 1] else Null
  }

  // `a op ANY (items)` is the disjunction over the items, `a op ALL (items)` the conjunction
  function AnyTv(db: Db, op: CmpOp, a: Value, items: seq<Value>): Tv
  {
    if items == [] then False else Or(Compare(db, op, a, items[0]), AnyTv(db, op, a, items[1..]))
  }

  function AllTv(db: Db, op: CmpOp, a: Value, items: seq<Value>): Tv
  {
    if items == [] then True else And(Compare(db, op, a, items[0]), AllTv(db, op, a, items[1..]))
  }

  function Eval(db: Db, c: Cond, row: Row, params: seq<Value>): Tv
  {
    match c
    case CompareWith(col, op, k) => Compare(db, op, Column(row, col), Argument(params, k))
    case NullTest(col, isNull) => OfBool((Column(row, col) == Null) == isNull)
    case AnyOf(col, op, k) =>
      var arg := Argument(params, k);
      if arg.List? then AnyTv(db, op, Column(row, col), arg.items) else Unknown
    case AllOf(col, op, k) =>
      var arg := Argument(params, k);
      if arg.List? then AllTv(db, op, Column(row, col), arg.items) else Unknown
    case Matches(col, fold, positive, k) =>
      var m := LikeTv(db, fold, Column(row, col), Argument(params, k));
      if positive then m else Not(m)
    case Contains(col, k) => ContainsTv(db, Column(row, col), Argument(params, k))
    case Negation(d) => Not(Eval(db, d, row, params))
    case Conjunction(a, b) => And(Eval(db, a, row, params), Eval(db, b, row, params))
    case Disjunction(a, b) => Or(Eval(db, a, row, params), Eval(db, b, row, params))
  }

  // -------------------------------------------------------------------------
  // Tokens and the parser
  // -------------------------------------------------------------------------

  datatype Token =
    | Name(name: string)       // a quoted identifier
    | Param(k: nat)            // $k
    | Op(op: CmpOp)
    | ContainsOp               // @>
    | KwAnd | KwOr | KwNot | KwIs | KwNull | KwLike | KwILike | KwAny | KwAll
    | LParen | RParen | Comma | Star
    | KwWhere | KwUpdate | KwSet | KwDelete | KwFrom | KwReturning

  datatype Parse = NoParse | Parsed(cond: Cond, rest: seq<Token>)

  predicate Starts(ts: seq<Token>, t: Token) { |ts| > 0 && ts[0] == t }

  // condition ::= term { OR term }
  function ParseOr(ts: seq<Token>): (p: Parse)
    ensures p.Parsed? ==> |p.rest| < |ts|
    decreases |ts|, 3
  {
    var p := ParseAnd(ts);
    if p.NoParse? || !Starts(p.rest, KwOr) then p else
    var q := ParseOr(p.rest[1..]);
    if q.NoParse? then q else Parsed(Disjunction(p.cond, q.cond), q.rest)
  }

  // term ::= factor { AND factor }
  function ParseAnd(ts: seq<Token>): (p: Parse)
    ensures p.Parsed? ==> |p.rest| < |ts|
    decreases |ts|, 2
  {
    var p := ParseFactor(ts);
    if p.NoParse? || !Starts(p.rest, KwAnd) then p else
    var q := ParseAnd(p.rest[1..]);
    if q.NoParse? then q else Parsed(Conjunction(p.cond, q.cond), q.rest)
  }

  // factor ::= NOT factor | primary
  function ParseFactor(ts: seq<Token>): (p: Parse)
    ensures p.Parsed? ==> |p.rest| < |ts|
    decreases |ts|, 1
  {
    if Starts(ts, KwNot) then
      var p := ParseFactor(ts[1..]);
      if p.NoParse? then p else Parsed(Negation(p.cond), p.rest)
    else ParsePrimary(ts)
  }

  // primary ::= ( condition ) | predicate
  function ParsePrimary(ts: seq<Token>): (p: Parse)
    ensures p.Parsed? ==> |p.rest| < |ts|
    decreases |ts|, 0
  {
    if Starts(ts, LParen) then
      var p := ParseOr(ts[1..]);
      if p.NoParse? || !Starts(p.rest, RParen) then NoParse else Parsed(p.cond, p.rest[1..])
    else ParsePredicate(ts)
  }

  // predicate ::= col op $k | col op ANY ( $k ) | col op ALL ( $k ) | col @> $k
  //             | col IS [NOT] NULL | col [NOT] LIKE $k | col [NOT] ILIKE $k
  function ParsePredicate(ts: seq<Token>): (p: Parse)
    ensures p.Parsed? ==> |p.rest| < |ts|
  {
    if |ts| < 3 || !ts[0].Name? then NoParse else
    var col := ts[0].name;
    match ts[1]
    case Op(op) =>
      if ts[2].Param? then Parsed(CompareWith(col, op, ts[2].k), ts[3..])
      else if |ts| >= 6 && ts[2] in {KwAny, KwAll} && ts[3] == LParen && ts[4].Param? && ts[5] == RParen then
        Parsed(if ts[2] == KwAny then AnyOf(col, op, ts[4].k) else AllOf(col, op, ts[4].k), ts[6..])
      else NoParse
    case ContainsOp =>
      if ts[2].Param? then Parsed(Contains(col, ts[2].k), ts[3..]) else NoParse
    case KwIs =>
      if ts[2] == KwNull then Parsed(NullTest(col, true), ts[3..])
      else if |ts| >= 4 && ts[2] == KwNot && ts[3] == KwNull then Parsed(NullTest(col, false), ts[4..])
      else NoParse
    case KwLike =>
      if ts[2].Param? then Parsed(Matches(col, false, true, ts[2].k), ts[3..]) else NoParse
    case KwILike =>
      if ts[2].Param? then Parsed(Matches(col, true, true, ts[2].k), ts[3..]) else NoParse
    case KwNot =>
      if |ts| >= 4 && ts[2] in {KwLike, KwILike} && ts[3].Param?
      then Parsed(Matches(col, ts[2] == KwILike, false, ts[3].k), ts[4..]) else NoParse
    case _ => NoParse
  }

  /** The placeholder numbers of a text, from left to right. */
  function Placeholders(ts: seq<Token>): seq<nat>
  {
    if ts == [] then []
    else (if ts[0].Param? then [ts[0].k] else []) + Placeholders(ts[1..])
  }

  /** $from, $(from+1), ... : `n` consecutive numbers. */
  function Numbers(from: nat, n: nat): (s: seq<nat>)
    ensures |s| == n
  {
    seq(n, i requires 0 <= i < n => from + i)
  }

  lemma {:induction false} PlaceholdersAppend(a: seq<Token>, b: seq<Token>)
    ensures Placeholders(a + b) == Placeholders(a) + Placeholders(b)
  {
    if a == [] {
      assert a + b == b;
    } else {
      assert (a + b)[0] == a[0] && (a + b)[1..] == a[1..] + b;
      PlaceholdersAppend(a[1..], b);
    }
  }

  lemma NumbersAppend(from: nat, m: nat, n: nat)
    ensures Numbers(from, m) + Numbers(from + m, n) == Numbers(from, m + n)
  {
  }
}
