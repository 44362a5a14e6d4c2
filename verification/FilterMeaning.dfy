/** The emitted WHERE clause, read back with SQL's precedence rules, means exactly that every
    filter holds; and its placeholders are consecutive, each bound to its own value. */
module FilterMeaning {
  import opened Wrappers
  import Strings
  import opened OrExpression
  import opened SqlSyntax
  import opened FilterCompiler

  // -------------------------------------------------------------------------
  // Reading the text back
  // -------------------------------------------------------------------------

  // A text that is one factor, whatever follows it
  ghost predicate IsFactor(ts: seq<Token>, c: Cond)
  {
    forall rest :: ParseFactor(ts + rest) == Parsed(c, rest)
  }

  /** The parser accepts no other text for a predicate than the one it is written with. */
  lemma PredicateText(ts: seq<Token>)
    ensures
      var p := ParsePredicate(ts);
      p.Parsed? ==>
        && !p.cond.Conjunction? && !p.cond.Disjunction? && !p.cond.Negation?
        && ts == Written(p.cond) + p.rest
  {
  }

  lemma AtomIsFactor(c: Cond)
    requires !c.Conjunction? && !c.Disjunction? && !c.Negation?
    ensures IsFactor(Written(c), c)
  {
    forall rest ensures ParseFactor(Written(c) + rest) == Parsed(c, rest) {
      var ts := Written(c) + rest;
      assert ts[|Written(c)|..] == rest;
    }
  }

  // A condition whose text nothing can extend
  ghost predicate Closed(ts: seq<Token>, c: Cond)
  {
    forall rest :: !Starts(rest, KwAnd) && !Starts(rest, KwOr) ==> ParseOr(ts + rest) == Parsed(c, rest)
  }

  lemma FactorIsClosed(ts: seq<Token>, c: Cond)
    requires IsFactor(ts, c)
    ensures Closed(ts, c)
  {
  }

  lemma Parenthesised(ts: seq<Token>, c: Cond)
    requires Closed(ts, c)
    ensures IsFactor([LParen] + ts + [RParen], c)
  {
    forall rest ensures ParseFactor([LParen] + ts + [RParen] + rest) == Parsed(c, rest) {
      var text := [LParen] + ts + [RParen] + rest;
      assert text[1..] == ts + ([RParen] + rest);
      assert ([RParen] + rest)[1..] == rest;
      assert ParseOr(ts + ([RParen] + rest)) == Parsed(c, [RParen] + rest);
    }
  }

  lemma NegatedFactor(ts: seq<Token>, c: Cond)
    requires IsFactor(ts, c)
    ensures IsFactor([KwNot] + ts, Negation(c))
  {
    forall rest ensures ParseFactor([KwNot] + ts + rest) == Parsed(Negation(c), rest) {
      assert ([KwNot] + ts + rest)[1..] == ts + rest;
    }
  }

  lemma WrittenIsFactor(c: Cond)
    requires !c.Conjunction? && !c.Disjunction?
    requires c.Negation? ==> c.c.CompareWith? || c.c.Contains?
    ensures IsFactor(Written(c), c)
  {
    if c.Negation? {
      AtomIsFactor(c.c);
      FactorIsClosed(Written(c.c), c.c);
      Parenthesised(Written(c.c), c.c);
      NegatedFactor([LParen] + Written(c.c) + [RParen], c.c);
      assert Written(c) == [KwNot] + ([LParen] + Written(c.c) + [RParen]);
    } else {
      AtomIsFactor(c);
    }
  }

  // Right-nested conjunctions and disjunctions, as the parser builds them
  function AndAll(cs: seq<Cond>): Cond
    requires cs != []
  {
    if |cs| == 1 then cs[0] else Conjunction(cs[0], AndAll(cs[1..]))
  }

  function OrAll(cs: seq<Cond>): Cond
    requires cs != []
  {
    if |cs| == 1 then cs[0] else Disjunction(cs[0], OrAll(cs[1..]))
  }

  ghost predicate AreFactors(texts: seq<seq<Token>>, cs: seq<Cond>)
  {
    |texts| == |cs| && forall i :: 0 <= i < |cs| ==> IsFactor(texts[i], cs[i])
  }

  lemma {:induction false} AndJoined(texts: seq<seq<Token>>, cs: seq<Cond>, rest: seq<Token>)
    requires cs != [] && AreFactors(texts, cs) && !Starts(rest, KwAnd)
    ensures ParseAnd(Strings.Join(texts, [KwAnd]) + rest) == Parsed(AndAll(cs), rest)
    decreases |cs|
  {
    if |cs| > 1 {
      var tail := Strings.Join(texts[1..], [KwAnd]) + rest;
      assert Strings.Join(texts, [KwAnd]) + rest == texts[0] + ([KwAnd] + tail);
      assert ([KwAnd] + tail)[1..] == tail;
      AndJoined(texts[1..], cs[1..], rest);
    }
  }

  lemma {:induction false} OrJoined(texts: seq<seq<Token>>, cs: seq<Cond>, rest: seq<Token>)
    requires cs != [] && AreFactors(texts, cs) && !Starts(rest, KwAnd) && !Starts(rest, KwOr)
    ensures ParseOr(Strings.Join(texts, [KwOr]) + rest) == Parsed(OrAll(cs), rest)
    decreases |cs|
  {
    if |cs| > 1 {
      var tail := Strings.Join(texts[1..], [KwOr]) + rest;
      assert Strings.Join(texts, [KwOr]) + rest == texts[0] + ([KwOr] + tail);
      assert ([KwOr] + tail)[1..] == tail;
      assert ParseAnd(texts[0] + ([KwOr] + tail)) == Parsed(cs[0], [KwOr] + tail);
      OrJoined(texts[1..], cs[1..], rest);
    }
  }

  // The conditions behind a list of or-clauses, and behind a list of filters
  function OrConds(clauses: seq<OrClause>, k: nat): (cs: seq<Cond>)
    ensures |cs| == |clauses|
  {
    if clauses == [] then [] else
    var front := clauses[..|clauses| - 1];
    OrConds(front, k) + [OrCondition(clauses[|clauses| - 1], k + |OrOperands(front)|)]
  }

  function FilterCond(f: Filter, k: nat): Cond
  {
    match f
    case OrGroup(expr) =>
      var cs := OrConds(OrClauses(expr), k);
      if cs == [] then NullTest("", true) else OrAll(cs)
    case _ => Condition(f, k)
  }

  function FilterConds(fs: seq<Filter>, k: nat): (cs: seq<Cond>)
    ensures |cs| == |fs|
  {
    if fs == [] then [] else
    var front := fs[..|fs| - 1];
    FilterConds(front, k) + [FilterCond(fs[|fs| - 1], k + |AllOperands(front)|)]
  }

  lemma {:induction false} OrPartsAreFactors(clauses: seq<OrClause>, k: nat)
    ensures AreFactors(OrParts(clauses, k), OrConds(clauses, k))
  {
    hide IsFactor, Written, OrCondition, LastOperand;
    if clauses != [] {
      var front := clauses[..|clauses| - 1];
      OrPartsAreFactors(front, k);
      WrittenIsFactor(OrCondition(clauses[|clauses| - 1], k + |OrOperands(front)|));
    }
  }

  lemma ClauseIsFactor(f: Filter, k: nat)
    requires FilterError(f) == None
    ensures IsFactor(ClauseTokens(f, k), FilterCond(f, k))
  {
    match f
    case OrGroup(expr) =>
      var clauses := OrClauses(expr);
      var text := Strings.Join(OrParts(clauses, k), [KwOr]);
      OrPartsAreFactors(clauses, k);
      forall rest | !Starts(rest, KwAnd) && !Starts(rest, KwOr)
        ensures ParseOr(text + rest) == Parsed(OrAll(OrConds(clauses, k)), rest)
      {
        OrJoined(OrParts(clauses, k), OrConds(clauses, k), rest);
      }
      Parenthesised(text, OrAll(OrConds(clauses, k)));
    case _ =>
      WrittenIsFactor(Condition(f, k));
  }

  lemma {:induction false} ClausesAreFactors(fs: seq<Filter>, k: nat)
    requires FirstError(fs) == None
    ensures AreFactors(Clauses(fs, k), FilterConds(fs, k))
  {
    hide ClauseTokens, FilterCond, IsFactor, FilterError, Operands;
    if fs != [] {
      var front := fs[..|fs| - 1];
      ClausesAreFactors(front, k);
      ClauseIsFactor(fs[|fs| - 1], k + |AllOperands(front)|);
    }
  }

  /** The condition text of a WHERE clause parses completely: nothing of it is left over, and
      nothing that follows is drawn into it. */
  lemma WhereParses(fs: seq<Filter>, bound: nat, rest: seq<Token>)
    requires fs != [] && FirstError(fs) == None
    requires !Starts(rest, KwAnd) && !Starts(rest, KwOr)
    ensures WhereTokens(fs, bound)[0] == KwWhere
    ensures ParseOr(WhereTokens(fs, bound)[1..] + rest) == Parsed(AndAll(FilterConds(fs, bound + 1)), rest)
  {
    var text := Strings.Join(Clauses(fs, bound + 1), [KwAnd]);
    assert WhereTokens(fs, bound)[1..] == text;
    ClausesAreFactors(fs, bound + 1);
    AndJoined(Clauses(fs, bound + 1), FilterConds(fs, bound + 1), rest);
  }

  // -------------------------------------------------------------------------
  // Evaluating what was read
  // -------------------------------------------------------------------------

  // `values` are bound to the placeholders $k, $(k+1), ...
  predicate BoundAt(params: seq<Value>, k: nat, values: seq<Value>)
  {
    1 <= k && k - 1 + |values| <= |params| && params[k - 1..][..|values|] == values
  }

  lemma BoundParts(iso: IsoParser, params: seq<Value>, k: nat, a: seq<Value>, b: seq<Value>)
    requires BoundAt(params, k, CoerceAll(iso, a + b))
    ensures BoundAt(params, k, CoerceAll(iso, a)) && BoundAt(params, k + |a|, CoerceAll(iso, b))
  {
    var all := params[k - 1..][..|a + b|];
    assert CoerceAll(iso, a) == all[..|a|];
    assert CoerceAll(iso, b) == all[|a|..];
  }

  lemma BoundOne(iso: IsoParser, params: seq<Value>, k: nat, v: Value)
    requires BoundAt(params, k, CoerceAll(iso, [v]))
    ensures Argument(params, k) == Coerce(iso, v)
  {
    assert params[k - 1..][..1][0] == Coerce(iso, v);
  }

  // `= ANY` is membership, `<> ALL` its negation
  lemma {:induction false} AnyIsIn(db: Db, a: Value, items: seq<Value>)
    ensures AnyTv(db, Eq, a, items) == InTv(db, a, items)
    ensures AllTv(db, Neq, a, items) == Not(InTv(db, a, items))
  {
    if items != [] {
      AnyIsIn(db, a, items[1..]);
      assert forall i :: 0 < i < |items| ==> items[i] == items[1..][i - 1];
      assert Null in items <==> items[0] == Null || Null in items[1..];
      if exists i :: 0 <= i < |items[1..]| && Compare(db, Eq, a, items[1..][i]) == True {
        var i :| 0 <= i < |items[1..]| && Compare(db, Eq, a, items[1..][i]) == True;
        assert items[i + 1] == items[1..][i];
      }
    }
  }

  lemma PlainMeaning(db: Db, iso: IsoParser, row: Row, params: seq<Value>, f: Filter, k: nat)
    requires !f.OrGroup? && FilterError(f) == None
    requires BoundAt(params, k, CoerceAll(iso, Operands(f)))
    ensures Eval(db, Condition(f, k), row, params) == FilterTv(db, iso, row, f)
  {
    if f.op != FIs {
      BoundOne(iso, params, k, f.val);
    }
    if f.op == FIn && Coerce(iso, f.val).List? {
      AnyIsIn(db, Column(row, f.col), Coerce(iso, f.val).items);
    }
  }

  lemma OrClauseMeaning(db: Db, iso: IsoParser, row: Row, params: seq<Value>, c: OrClause, k: nat)
    requires BoundAt(params, k, CoerceAll(iso, LastOperand(c)))
    ensures Eval(db, OrCondition(c, k), row, params) == OrClauseTv(db, iso, row, c)
  {
    if c.op != OrIs {
      BoundOne(iso, params, k, OrOperand(c));
    }
  }

  ghost function EvalAll(db: Db, row: Row, params: seq<Value>, cs: seq<Cond>): (tvs: seq<Tv>)
  {
    seq(|cs|, i requires 0 <= i < |cs| => Eval(db, cs[i], row, params))
  }

  lemma {:induction false} OrCondsMeaning(
    db: Db, iso: IsoParser, row: Row, params: seq<Value>, clauses: seq<OrClause>, k: nat)
    requires BoundAt(params, k, CoerceAll(iso, OrOperands(clauses)))
    ensures EvalAll(db, row, params, OrConds(clauses, k))
      == seq(|clauses|, i requires 0 <= i < |clauses| => OrClauseTv(db, iso, row, clauses[i]))
  {
    hide OrCondition, OrClauseTv, Eval, LastOperand;
    if clauses != [] {
      var front, c := clauses[..|clauses| - 1], clauses[|clauses| - 1];
      BoundParts(iso, params, k, OrOperands(front), LastOperand(c));
      OrCondsMeaning(db, iso, row, params, front, k);
      OrClauseMeaning(db, iso, row, params, c, k + |OrOperands(front)|);
      var tvs := EvalAll(db, row, params, OrConds(front, k));
      assert forall i :: 0 <= i < |front| ==> tvs[i] == OrClauseTv(db, iso, row, front[i]);
      assert EvalAll(db, row, params, OrConds(clauses, k))
        == tvs + [Eval(db, OrCondition(c, k + |OrOperands(front)|), row, params)];
    }
  }

  lemma {:induction false} OrAllMeaning(
    db: Db, iso: IsoParser, row: Row, params: seq<Value>, cs: seq<Cond>, clauses: seq<OrClause>)
    requires cs != [] && |cs| == |clauses|
    requires forall i :: 0 <= i < |cs| ==> Eval(db, cs[i], row, params) == OrClauseTv(db, iso, row, clauses[i])
    ensures Eval(db, OrAll(cs), row, params) == SomeTv(db, iso, row, clauses)
    decreases |cs|
  {
    hide OrClauseTv, Compare, LikeTv, ContainsTv, AnyTv, AllTv;
    if |cs| == 1 {
      assert SomeTv(db, iso, row, clauses[1..]) == False;
    } else {
      OrAllMeaning(db, iso, row, params, cs[1..], clauses[1..]);
    }
  }

  lemma FilterCondMeaning(db: Db, iso: IsoParser, row: Row, params: seq<Value>, f: Filter, k: nat)
    requires FilterError(f) == None
    requires BoundAt(params, k, CoerceAll(iso, Operands(f)))
    ensures Eval(db, FilterCond(f, k), row, params) == FilterTv(db, iso, row, f)
  {
    match f
    case OrGroup(expr) =>
      var clauses := OrClauses(expr);
      var cs := OrConds(clauses, k);
      OrCondsMeaning(db, iso, row, params, clauses, k);
      forall i | 0 <= i < |cs| ensures Eval(db, cs[i], row, params) == OrClauseTv(db, iso, row, clauses[i]) {
        assert EvalAll(db, row, params, cs)[i] == Eval(db, cs[i], row, params);
      }
      OrAllMeaning(db, iso, row, params, cs, clauses);
    case _ =>
      PlainMeaning(db, iso, row, params, f, k);
  }

  lemma {:induction false} FilterCondsMeaning(
    db: Db, iso: IsoParser, row: Row, params: seq<Value>, fs: seq<Filter>, k: nat)
    requires FirstError(fs) == None
    requires BoundAt(params, k, CoerceAll(iso, AllOperands(fs)))
    ensures forall i :: 0 <= i < |fs| ==>
      Eval(db, FilterConds(fs, k)[i], row, params) == FilterTv(db, iso, row, fs[i])
  {
    hide FilterCond, FilterTv, Eval, Operands, FilterError;
    if fs != [] {
      var front, f := fs[..|fs| - 1], fs[|fs| - 1];
      BoundParts(iso, params, k, AllOperands(front), Operands(f));
      FilterCondsMeaning(db, iso, row, params, front, k);
      FilterCondMeaning(db, iso, row, params, f, k + |AllOperands(front)|);
      forall i | 0 <= i < |fs| ensures Eval(db, FilterConds(fs, k)[i], row, params) == FilterTv(db, iso, row, fs[i]) {
        if i < |front| {
          assert fs[i] == front[i] && FilterConds(fs, k)[i] == FilterConds(front, k)[i];
        }
      }
    }
  }

  lemma {:induction false} AndAllMeaning(
    db: Db, iso: IsoParser, row: Row, params: seq<Value>, cs: seq<Cond>, fs: seq<Filter>)
    requires cs != [] && |cs| == |fs|
    requires forall i :: 0 <= i < |cs| ==> Eval(db, cs[i], row, params) == FilterTv(db, iso, row, fs[i])
    ensures Eval(db, AndAll(cs), row, params) == AllFiltersTv(db, iso, row, fs)
    decreases |cs|
  {
    hide FilterTv, Compare, LikeTv, ContainsTv, AnyTv, AllTv;
    if |cs| == 1 {
      assert AllFiltersTv(db, iso, row, fs[1..]) == True;
    } else {
      AndAllMeaning(db, iso, row, params, cs[1..], fs[1..]);
    }
  }

  lemma {:induction false} AllTrue(db: Db, iso: IsoParser, row: Row, fs: seq<Filter>)
    ensures AllFiltersTv(db, iso, row, fs) == True
      <==> forall i :: 0 <= i < |fs| ==> FilterTv(db, iso, row, fs[i]) == True
  {
    if fs != [] {
      AllTrue(db, iso, row, fs[1..]);
      assert forall i :: 0 < i < |fs| ==> fs[i] == fs[1..][i - 1];
    }
  }

  // -------------------------------------------------------------------------
  // Placeholders
  // -------------------------------------------------------------------------

  // Where the placeholder stands in the text of a predicate; NULL tests have none
  function ParamIndex(c: Cond): int
  {
    match c
    case AnyOf(_, _, _) => 4
    case AllOf(_, _, _) => 4
    case Matches(_, _, positive, _) => if positive then 2 else 3
    case NullTest(_, _) => -1
    case _ => 2
  }

  lemma {:induction false} OnePlaceholder(ts: seq<Token>, at: int)
    requires at < |ts|
    requires forall i :: 0 <= i < |ts| ==> (ts[i].Param? <==> i == at)
    ensures Placeholders(ts) == if at < 0 then [] else [ts[at].k]
  {
    if ts != [] {
      OnePlaceholder(ts[1..], if at <= 0 then -1 else at - 1);
    }
  }

  lemma WrittenPlaceholders(c: Cond)
    requires !c.Conjunction? && !c.Disjunction?
    requires c.Negation? ==> c.c.CompareWith? || c.c.Contains?
    ensures Placeholders(Written(c)) ==
      if c.NullTest? then [] else if c.Negation? then [c.c.param] else [c.param]
  {
    if c.Negation? {
      WrittenPlaceholders(c.c);
      PlaceholdersAppend([KwNot, LParen] + Written(c.c), [RParen]);
      PlaceholdersAppend([KwNot, LParen], Written(c.c));
    } else {
      var ts := Written(c);
      assert forall i :: 0 <= i < |ts| ==> (ts[i].Param? <==> i == ParamIndex(c));
      OnePlaceholder(ts, ParamIndex(c));
    }
  }

  lemma NothingWritten()
    ensures Placeholders([]) == [] && Placeholders([LParen]) == [] && Placeholders([RParen]) == []
  {
  }

  // Appending one text to a joined list only appends its placeholders
  lemma {:induction false} JoinedPlaceholders(texts: seq<seq<Token>>, last: seq<Token>, sep: Token)
    requires !sep.Param?
    ensures Placeholders(Strings.Join(texts + [last], [sep]))
      == Placeholders(Strings.Join(texts, [sep])) + Placeholders(last)
    decreases |texts|
  {
    assert Placeholders([sep]) == [];
    hide Placeholders;
    if texts == [] {
      assert texts + [last] == [last];
    } else {
      var rest := texts[1..];
      assert (texts + [last])[1..] == rest + [last];
      JoinedPlaceholders(rest, last, sep);
      PlaceholdersAppend(texts[0] + [sep], Strings.Join(rest + [last], [sep]));
      PlaceholdersAppend(texts[0] + [sep], Strings.Join(rest, [sep]));
      PlaceholdersAppend(texts[0], [sep]);
      NothingWritten();
    }
  }

  lemma OrClausePlaceholders(c: OrClause, k: nat)
    ensures Placeholders(Written(OrCondition(c, k))) == Numbers(k, |LastOperand(c)|)
  {
    WrittenPlaceholders(OrCondition(c, k));
  }

  lemma NothingJoined(sep: seq<Token>)
    ensures Strings.Join([], sep) == []
  {
  }

  lemma {:induction false} OrPlaceholders(clauses: seq<OrClause>, k: nat)
    ensures Placeholders(Strings.Join(OrParts(clauses, k), [KwOr])) == Numbers(k, |OrOperands(clauses)|)
  {
    NothingJoined([KwOr]);
    hide Written, OrCondition, LastOperand, Strings.Join;
    if clauses != [] {
      var front, c := clauses[..|clauses| - 1], clauses[|clauses| - 1];
      var last := OrCondition(c, k + |OrOperands(front)|);
      OrPlaceholders(front, k);
      JoinedPlaceholders(OrParts(front, k), Written(last), KwOr);
      OrClausePlaceholders(c, k + |OrOperands(front)|);
      NumbersAppend(k, |OrOperands(front)|, |LastOperand(c)|);
    }
  }

  lemma GroupPlaceholders(text: seq<Token>)
    ensures Placeholders([LParen] + text + [RParen]) == Placeholders(text)
  {
    NothingWritten();
    hide Placeholders;
    PlaceholdersAppend([LParen] + text, [RParen]);
    PlaceholdersAppend([LParen], text);
  }

  lemma ClausePlaceholders(f: Filter, k: nat)
    requires FilterError(f) == None
    ensures Placeholders(ClauseTokens(f, k)) == Numbers(k, |Operands(f)|)
  {
    hide Placeholders, Written, OrParts, OrClauses, FilterError, Strings.Join;
    match f
    case OrGroup(expr) =>
      var text := Strings.Join(OrParts(OrClauses(expr), k), [KwOr]);
      OrPlaceholders(OrClauses(expr), k);
      GroupPlaceholders(text);
    case _ =>
      WrittenPlaceholders(Condition(f, k));
  }

  lemma {:induction false} ClausesPlaceholders(fs: seq<Filter>, k: nat)
    requires FirstError(fs) == None
    ensures Placeholders(Strings.Join(Clauses(fs, k), [KwAnd])) == Numbers(k, |AllOperands(fs)|)
  {
    NothingJoined([KwAnd]);
    hide ClauseTokens, FilterError, Operands, Strings.Join;
    if fs != [] {
      var front, f := fs[..|fs| - 1], fs[|fs| - 1];
      ClausesPlaceholders(front, k);
      JoinedPlaceholders(Clauses(front, k), ClauseTokens(f, k + |AllOperands(front)|), KwAnd);
      ClausePlaceholders(f, k + |AllOperands(front)|);
      NumbersAppend(k, |AllOperands(front)|, |Operands(f)|);
    }
  }

  /** From left to right, the placeholders of a WHERE clause are the next free numbers. */
  lemma WherePlaceholders(fs: seq<Filter>, bound: nat)
    requires FirstError(fs) == None
    ensures Placeholders(WhereTokens(fs, bound)) == Numbers(bound + 1, |AllOperands(fs)|)
  {
    if fs != [] {
      ClausesPlaceholders(fs, bound + 1);
      PlaceholdersAppend([KwWhere], Strings.Join(Clauses(fs, bound + 1), [KwAnd]));
    }
  }

  // -------------------------------------------------------------------------
  // The main theorem
  // -------------------------------------------------------------------------

  /** The truth value of a WHERE clause; no clause at all selects every row. */
  ghost function WhereTv(db: Db, where: seq<Token>, params: seq<Value>, row: Row): Option<Tv>
  {
    if where == [] then Some(True)
    else if where[0] != KwWhere then None
    else
      var p := ParseOr(where[1..]);
      if p.Parsed? && p.rest == [] then Some(Eval(db, p.cond, row, params)) else None
  }

  lemma NoFilters(db: Db, iso: IsoParser, row: Row)
    ensures AllFiltersTv(db, iso, row, []) == True
  {
  }

  /** For every filter list, every row and every parameter list that starts with what was bound
      before, the emitted clause is a complete condition whose three-valued truth is the
      conjunction of the filters; it selects the row exactly when every filter is true. */
  lemma {:induction false} WhereMeaning(db: Db, iso: IsoParser, row: Row, fs: seq<Filter>, before: seq<Value>)
    requires FirstError(fs) == None
    ensures
      var params := Bind(iso, before, AllOperands(fs));
      var tv := WhereTv(db, WhereTokens(fs, |before|), params, row);
      && tv == Some(AllFiltersTv(db, iso, row, fs))
      && (tv == Some(True) <==> forall i :: 0 <= i < |fs| ==> FilterTv(db, iso, row, fs[i]) == True)
  {
    hide FilterConds, FilterTv, AllOperands, Clauses, FirstError, ParseOr, CoerceAll, Eval;
    AllTrue(db, iso, row, fs);
    if fs == [] {
      NoFilters(db, iso, row);
    } else {
      var params := Bind(iso, before, AllOperands(fs));
      var conds := FilterConds(fs, |before| + 1);
      WhereParses(fs, |before|, []);
      assert WhereTokens(fs, |before|)[1..] + [] == WhereTokens(fs, |before|)[1..];
      assert params[|before|..] == CoerceAll(iso, AllOperands(fs));
      FilterCondsMeaning(db, iso, row, params, fs, |before| + 1);
      AndAllMeaning(db, iso, row, params, conds, fs);
    }
  }

  /** `is_` with None or "null" selects the rows whose column is NULL, with anything else the others;
      the negated form the other way round. Either way the truth value is never unknown. */
  lemma IsSelects(db: Db, iso: IsoParser, row: Row, col: string, v: Value)
    ensures FilterTv(db, iso, row, Plain(col, FIs, v)) ==
      if (Column(row, col) == Null) == (v == Null || v == Text("null")) then True else False
    ensures FilterTv(db, iso, row, Negated(col, FIs, v)) ==
      if (Column(row, col) == Null) == (v == Null || v == Text("null")) then False else True
  {
  }

  lemma OneFilter(f: Filter, bound: nat)
    ensures WhereTokens([f], bound) == [KwWhere] + ClauseTokens(f, bound + 1)
    ensures AllOperands([f]) == Operands(f)
  {
    hide ClauseTokens, Operands;
    assert [f][..0] == [];
    assert Clauses([f], bound + 1) == [ClauseTokens(f, bound + 1)];
  }

  /** The text of `is_`, in both forms; it binds nothing. */
  lemma IsText(col: string, v: Value, bound: nat)
    ensures
      var isNull, notNull := [KwWhere, Name(col), KwIs, KwNull], [KwWhere, Name(col), KwIs, KwNot, KwNull];
      && WhereTokens([Plain(col, FIs, v)], bound) == (if v == Null || v == Text("null") then isNull else notNull)
      && WhereTokens([Negated(col, FIs, v)], bound) == (if v == Null || v == Text("null") then notNull else isNull)
    ensures AllOperands([Plain(col, FIs, v)]) == [] && AllOperands([Negated(col, FIs, v)]) == []
  {
    OneFilter(Plain(col, FIs, v), bound);
    OneFilter(Negated(col, FIs, v), bound);
  }

  /** `is_` with a Boolean operand is not SQL's IS TRUE / IS FALSE: the two agree on a row
      exactly when the column is NULL or already holds the operand. */
  lemma IsWithBoolean(db: Db, iso: IsoParser, row: Row, col: string, b: bool)
    requires Column(row, col).Null? || Column(row, col).Bool?
    ensures FilterTv(db, iso, row, Plain(col, FIs, Bool(b))) == OfBool(Column(row, col) == Bool(b))
      <==> Column(row, col) == Null || Column(row, col) == Bool(b)
  {
    assert !MeansNull(Bool(b));
  }

  /** An `or_` filter built from clauses whose values survive the trip through text means the
      three-valued disjunction of those clauses, with `*` read as `%` in like patterns. */
  lemma {:induction false} PrintedOrMeaning(db: Db, iso: IsoParser, row: Row, clauses: seq<OrClause>)
    requires clauses != []
    requires forall i :: 0 <= i < |clauses| ==> IsIdent(clauses[i].col) && Survives(clauses[i].val)
    ensures FilterError(OrGroup(Print(clauses))) == None
    ensures FilterTv(db, iso, row, OrGroup(Print(clauses))) == SomeTv(db, iso, row, clauses)
  {
    hide Print, SomeTv, Survives, IsIdent;
    OrRoundTrip(clauses);
  }

  lemma OneDisjunct(db: Db, iso: IsoParser, row: Row, c: OrClause)
    ensures SomeTv(db, iso, row, [c]) == OrClauseTv(db, iso, row, c)
  {
    hide OrClauseTv;
    assert [c][1..] == [];
    assert SomeTv(db, iso, row, []) == False;
  }

  lemma OneClauseText(db: Db, iso: IsoParser, row: Row, c: OrClause)
    requires IsIdent(c.col) && Survives(c.val)
    ensures FilterTv(db, iso, row, OrGroup(c.col + "." + OpName(c.op) + "." + c.val)) == OrClauseTv(db, iso, row, c)
  {
    hide FilterTv, Survives, IsIdent, OrClauseTv;
    PrintedOrMeaning(db, iso, row, [c]);
    assert Print([c]) == PrintClause(c);
    OneDisjunct(db, iso, row, c);
  }

  lemma OneClauseNamed(db: Db, iso: IsoParser, row: Row, c: OrClause, op: string)
    requires IsIdent(c.col) && Survives(c.val) && op == "." + OpName(c.op) + "."
    ensures FilterTv(db, iso, row, OrGroup(c.col + op + c.val)) == OrClauseTv(db, iso, row, c)
  {
    hide *;
    OneClauseText(db, iso, row, c);
    assert c.col + op + c.val == c.col + "." + OpName(c.op) + "." + c.val;
  }

  /** What a one-clause `or_` text means, operator by operator. */
  lemma {:induction false} OneComparison(db: Db, iso: IsoParser, row: Row, col: string, val: string)
    requires IsIdent(col) && Survives(val)
    ensures
      var here, arg := Column(row, col), Coerce(iso, Text(val));
      && FilterTv(db, iso, row, OrGroup(col + ".eq." + val)) == Compare(db, Eq, here, arg)
      && FilterTv(db, iso, row, OrGroup(col + ".neq." + val)) == Compare(db, Neq, here, arg)
      && FilterTv(db, iso, row, OrGroup(col + ".gt." + val)) == Compare(db, Gt, here, arg)
      && FilterTv(db, iso, row, OrGroup(col + ".gte." + val)) == Compare(db, Ge, here, arg)
      && FilterTv(db, iso, row, OrGroup(col + ".lt." + val)) == Compare(db, Lt, here, arg)
      && FilterTv(db, iso, row, OrGroup(col + ".lte." + val)) == Compare(db, Le, here, arg)
  {
    hide FilterTv, Survives, IsIdent, Compare, Coerce;
    OneClauseNamed(db, iso, row, OrClause(col, OrEq, val), ".eq.");
    OneClauseNamed(db, iso, row, OrClause(col, OrNeq, val), ".neq.");
    OneClauseNamed(db, iso, row, OrClause(col, OrGt, val), ".gt.");
    OneClauseNamed(db, iso, row, OrClause(col, OrGte, val), ".gte.");
    OneClauseNamed(db, iso, row, OrClause(col, OrLt, val), ".lt.");
    OneClauseNamed(db, iso, row, OrClause(col, OrLte, val), ".lte.");
  }

  /** The same for the pattern operators and `is`. */
  lemma {:induction false} OnePattern(db: Db, iso: IsoParser, row: Row, col: string, val: string)
    requires IsIdent(col) && Survives(val)
    ensures
      var here := Column(row, col);
      var pattern := Coerce(iso, Text(Strings.Join(Strings.Split(val, '*'), "%")));
      && FilterTv(db, iso, row, OrGroup(col + ".like." + val)) == LikeTv(db, false, here, pattern)
      && FilterTv(db, iso, row, OrGroup(col + ".ilike." + val)) == LikeTv(db, true, here, pattern)
      && FilterTv(db, iso, row, OrGroup(col + ".is." + val)) ==
        if (here == Null) == (val == "null" || val == "NULL") then True else False
  {
    hide FilterTv, Survives, IsIdent, LikeTv, Coerce, Strings.Replace;
    Strings.ReplaceIsJoin(val, '*', "%");
    OneClauseNamed(db, iso, row, OrClause(col, OrLike, val), ".like.");
    OneClauseNamed(db, iso, row, OrClause(col, OrILike, val), ".ilike.");
    OneClauseNamed(db, iso, row, OrClause(col, OrIs, val), ".is.");
  }
}
