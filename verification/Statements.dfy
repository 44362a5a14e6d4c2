/** UPDATE and DELETE statements: the whole emitted text, executed on a table. */
module Statements {
  import opened Wrappers
  import Strings
  import opened OrExpression
  import opened SqlSyntax
  import opened FilterCompiler
  import opened FilterMeaning

  /** A Python dict from column names to values: insertion order and contents. */
  datatype Dict = Dict(keys: seq<string>, vals: map<string, Value>) {
    ghost predicate Valid()
    {
      && (forall i, j :: 0 <= i < j < |keys| ==> keys[i] != keys[j])
      && (forall c :: c in keys <==> c in vals)
    }

    function Values(): seq<Value>
      requires Valid()
    {
      seq(|keys|, i requires 0 <= i < |keys| => assert keys[i] in keys; vals[keys[i]])
    }

    ghost function Coerced(iso: IsoParser): map<string, Value>
    {
      map c | c in vals :: Coerce(iso, vals[c])
    }
  }

  type Statement = Result<(seq<Token>, seq<Value>), SqlError>

  // The first of some names that is not an identifier
  function BadName(names: seq<string>): Option<SqlError>
  {
    if names == [] then None else
    var e := BadName(names[..|names| - 1]);
    if e == None && !IsIdent(names[|names| - 1]) then Some(UnsafeIdentifier(names[|names| - 1])) else e
  }

  function SetParts(keys: seq<string>): (parts: seq<seq<Token>>)
    ensures |parts| == |keys|
    ensures forall i :: 0 <= i < |keys| ==> parts[i] == [Name(keys[i]), Op(Eq), Param(i + 1)]
  {
    if keys == [] then []
    else SetParts(keys[..|keys| - 1]) + [[Name(keys[|keys| - 1]), Op(Eq), Param(|keys|)]]
  }

  function UpdateTokens(table: string, keys: seq<string>, fs: seq<Filter>): seq<Token>
  {
    [KwUpdate, Name(table), KwSet] + Strings.Join(SetParts(keys), [Comma])
      + WhereTokens(fs, |keys|) + [KwReturning, Star]
  }

  function DeleteTokens(table: string, fs: seq<Filter>): seq<Token>
  {
    [KwDelete, KwFrom, Name(table)] + WhereTokens(fs, 0) + [KwReturning, Star]
  }

  // The checks of an UPDATE in the order in which they are made
  function UpdateError(table: string, keys: seq<string>, fs: seq<Filter>): Option<SqlError>
  {
    if fs == [] then Some(MissingFilter)
    else if BadName(keys) != None then BadName(keys)
    else if !IsIdent(table) then Some(UnsafeIdentifier(table))
    else FirstError(fs)
  }

  function DeleteError(table: string, fs: seq<Filter>): Option<SqlError>
  {
    if fs == [] then Some(MissingFilter)
    else if !IsIdent(table) then Some(UnsafeIdentifier(table))
    else FirstError(fs)
  }

  function UpdateParams(iso: IsoParser, payload: Dict, fs: seq<Filter>): seq<Value>
    requires payload.Valid()
  {
    Bind(iso, CoerceAll(iso, payload.Values()), AllOperands(fs))
  }

  lemma OneMoreSet(iso: IsoParser, payload: Dict, i: nat)
    requires payload.Valid() && i < |payload.keys|
    ensures payload.keys[i] in payload.vals
    ensures SetParts(payload.keys[..i + 1]) == SetParts(payload.keys[..i]) + [[Name(payload.keys[i]), Op(Eq), Param(i + 1)]]
    ensures CoerceAll(iso, payload.Values()[..i + 1])
      == CoerceAll(iso, payload.Values()[..i]) + [Coerce(iso, payload.vals[payload.keys[i]])]
    ensures BadName(payload.keys[..i]) == None ==>
      BadName(payload.keys[..i + 1]) == if IsIdent(payload.keys[i]) then None else Some(UnsafeIdentifier(payload.keys[i]))
  {
    hide IsIdent, Coerce;
    assert payload.keys[i] in payload.keys;
    assert payload.keys[..i + 1][..i] == payload.keys[..i];
  }

  lemma {:induction false} BadNameAt(names: seq<string>, n: nat)
    requires n <= |names| && BadName(names[..n]) != None
    ensures BadName(names) == BadName(names[..n])
  {
    if n < |names| {
      assert names[..|names| - 1][..n] == names[..n];
      BadNameAt(names[..|names| - 1], n);
    } else {
      assert names[..n] == names;
    }
  }

  /** The update branch of `_run_op`. */
  method CompileUpdate(t: PostgresTable, table: string, payload: Dict, iso: IsoParser) returns (r: Statement)
    requires payload.Valid()
    ensures match UpdateError(table, payload.keys, t.filters)
      case Some(e) => r == Err(e)
      case None => r == Ok((UpdateTokens(table, payload.keys, t.filters), UpdateParams(iso, payload, t.filters)))
  {
    hide FirstError, WhereTokens, AllOperands, IsIdent, Coerce;
    if t.filters == [] {
      return Err(MissingFilter);
    }
    var sql := new Sql(iso);
    var sets: seq<seq<Token>> := [];
    var i := 0;
    assert CoerceAll(iso, payload.Values()[..0]) == [];
    while i < |payload.keys|
      invariant 0 <= i <= |payload.keys| && fresh(sql) && sql.iso == iso && t.filters == old(t.filters)
      invariant BadName(payload.keys[..i]) == None
      invariant sets == SetParts(payload.keys[..i])
      invariant sql.params == CoerceAll(iso, payload.Values()[..i])
    {
      var key := payload.keys[i];
      OneMoreSet(iso, payload, i);
      if !IsIdent(key) {
        BadNameAt(payload.keys, i + 1);
        return Err(UnsafeIdentifier(key));
      }
      var p := sql.Add(payload.vals[key]);
      sets := sets + [[Name(key), Op(Eq), p]];
      i := i + 1;
    }
    assert payload.keys[..i] == payload.keys && payload.Values()[..i] == payload.Values();
    if !IsIdent(table) {
      return Err(UnsafeIdentifier(table));
    }
    var where := t.Where(sql);
    if where.Err? {
      return Err(where.error);
    }
    r := Ok(([KwUpdate, Name(table), KwSet] + Strings.Join(sets, [Comma]) + where.value + [KwReturning, Star], sql.params));
  }

  /** The delete branch of `_run_op`. */
  method CompileDelete(t: PostgresTable, table: string, iso: IsoParser) returns (r: Statement)
    ensures match DeleteError(table, t.filters)
      case Some(e) => r == Err(e)
      case None => r == Ok((DeleteTokens(table, t.filters), Bind(iso, [], AllOperands(t.filters))))
  {
    hide FirstError, WhereTokens, AllOperands, IsIdent, Coerce;
    if t.filters == [] {
      return Err(MissingFilter);
    }
    var sql := new Sql(iso);
    if !IsIdent(table) {
      return Err(UnsafeIdentifier(table));
    }
    var where := t.Where(sql);
    if where.Err? {
      return Err(where.error);
    }
    r := Ok(([KwDelete, KwFrom, Name(table)] + where.value + [KwReturning, Star], sql.params));
  }

  // -------------------------------------------------------------------------
  // Executing a statement text
  // -------------------------------------------------------------------------

  datatype Effect = Rejected | Applied(rows: seq<Row>, returned: seq<Row>)

  datatype Sets = NoSets | SetsParsed(assigns: seq<(string, nat)>, rest: seq<Token>)

  // assignments ::= col = $k { , col = $k }
  function ParseSets(ts: seq<Token>): Sets
  {
    if !(|ts| >= 3 && ts[0].Name? && ts[1] == Op(Eq) && ts[2].Param?) then NoSets else
    var first := (ts[0].name, ts[2].k);
    if !Starts(ts[3..], Comma) then SetsParsed([first], ts[3..]) else
    match ParseSets(ts[4..])
    case NoSets => NoSets
    case SetsParsed(more, rest) => SetsParsed([first] + more, rest)
  }

  // The tail of a statement: an optional condition, then RETURNING *
  function ParseTail(ts: seq<Token>): Option<Option<Cond>>
  {
    if ts == [KwReturning, Star] then Some(None)
    else if !Starts(ts, KwWhere) then None
    else
      var p := ParseOr(ts[1..]);
      if p.Parsed? && p.rest == [KwReturning, Star] then Some(Some(p.cond)) else None
  }

  function Selects(db: Db, cond: Option<Cond>, row: Row, params: seq<Value>): bool
  {
    match cond case None => true case Some(c) => Eval(db, c, row, params) == True
  }

  function Assign(row: Row, assigns: seq<(string, nat)>, params: seq<Value>): Row
  {
    if assigns == [] then row
    else Assign(row, assigns[..|assigns| - 1], params)[assigns[|assigns| - 1].0 := Argument(params, assigns[|assigns| - 1].1)]
  }

  // Every selected row replaced in place, and the list of replaced rows
  function Rewrite(rows: seq<Row>, selected: Row -> bool, change: Row -> Row): seq<Row>
  {
    if rows == [] then []
    else [if selected(rows[0]) then change(rows[0]) else rows[0]] + Rewrite(rows[1..], selected, change)
  }

  function Changed(rows: seq<Row>, selected: Row -> bool, change: Row -> Row): seq<Row>
  {
    if rows == [] then []
    else (if selected(rows[0]) then [change(rows[0])] else []) + Changed(rows[1..], selected, change)
  }

  function ExecUpdate(db: Db, ts: seq<Token>, params: seq<Value>, rows: seq<Row>): Effect
  {
    if !(|ts| >= 3 && ts[0] == KwUpdate && ts[1].Name? && ts[2] == KwSet) then Rejected else
    match ParseSets(ts[3..])
    case NoSets => Rejected
    case SetsParsed(assigns, rest) =>
      match ParseTail(rest)
      case None => Rejected
      case Some(cond) =>
        Applied(
          Rewrite(rows, row => Selects(db, cond, row, params), row => Assign(row, assigns, params)),
          Changed(rows, row => Selects(db, cond, row, params), row => Assign(row, assigns, params)))
  }

  function ExecDelete(db: Db, ts: seq<Token>, params: seq<Value>, rows: seq<Row>): Effect
  {
    if !(|ts| >= 3 && ts[0] == KwDelete && ts[1] == KwFrom && ts[2].Name?) then Rejected else
    match ParseTail(ts[3..])
    case None => Rejected
    case Some(cond) =>
      Applied(
        Changed(rows, row => !Selects(db, cond, row, params), row => row),
        Changed(rows, row => Selects(db, cond, row, params), row => row))
  }

  /** The positions of the selected rows, in order: strictly increasing, and exactly those rows. */
  ghost predicate Picks(rows: seq<Row>, selected: Row -> bool, at: seq<nat>)
  {
    && (forall k :: 0 <= k < |at| ==> at[k] < |rows| && selected(rows[at[k]]))
    && (forall k, l :: 0 <= k < l < |at| ==> at[k] < at[l])
    && (forall i :: 0 <= i < |rows| && selected(rows[i]) ==> i in at)
  }

  /** `out` holds what stands in `from` at the positions of the selected rows, in order. */
  ghost predicate SelectedFrom(rows: seq<Row>, selected: Row -> bool, from: seq<Row>, out: seq<Row>)
    requires |from| == |rows|
  {
    exists at: seq<nat> ::
      Picks(rows, selected, at) && |out| == |at| && forall k :: 0 <= k < |at| ==> out[k] == from[at[k]]
  }

  function Positions(rows: seq<Row>, selected: Row -> bool): (at: seq<nat>)
  {
    if rows == [] then [] else
    Positions(rows[..|rows| - 1], selected) + if selected(rows[|rows| - 1]) then [|rows| - 1] else []
  }

  lemma {:induction false} PositionsPick(rows: seq<Row>, selected: Row -> bool)
    ensures Picks(rows, selected, Positions(rows, selected))
  {
    if rows != [] {
      PositionsPick(rows[..|rows| - 1], selected);
    }
  }

  lemma {:induction false} ChangedAppend(a: seq<Row>, b: seq<Row>, selected: Row -> bool, change: Row -> Row)
    ensures Changed(a + b, selected, change) == Changed(a, selected, change) + Changed(b, selected, change)
  {
    if a == [] {
      assert a + b == b;
    } else {
      assert (a + b)[1..] == a[1..] + b;
      ChangedAppend(a[1..], b, selected, change);
    }
  }

  lemma {:induction false} ChangedAt(rows: seq<Row>, selected: Row -> bool, change: Row -> Row)
    ensures
      var at := Positions(rows, selected);
      && |Changed(rows, selected, change)| == |at|
      && forall k :: 0 <= k < |at| ==> at[k] < |rows| && Changed(rows, selected, change)[k] == change(rows[at[k]])
  {
    if rows != [] {
      var front, last := rows[..|rows| - 1], rows[|rows| - 1];
      ChangedAt(front, selected, change);
      ChangedAppend(front, [last], selected, change);
      assert rows == front + [last] && [last][1..] == [];
      assert Changed([last], selected, change) == if selected(last) then [change(last)] else [];
    }
  }

  lemma {:induction false} RewriteAt(rows: seq<Row>, selected: Row -> bool, change: Row -> Row)
    ensures |Rewrite(rows, selected, change)| == |rows|
    ensures forall i :: 0 <= i < |rows| ==>
      Rewrite(rows, selected, change)[i] == if selected(rows[i]) then change(rows[i]) else rows[i]
  {
    if rows != [] {
      RewriteAt(rows[1..], selected, change);
    }
  }

  lemma OneMoreRow<T>(first: T, left: seq<T>, gone: seq<T>, rest: seq<T>)
    requires multiset(left) + multiset(gone) == multiset(rest)
    ensures multiset([first] + left) + multiset([] + gone) == multiset([first] + rest)
    ensures multiset([] + left) + multiset([first] + gone) == multiset([first] + rest)
  {
    assert [] + gone == gone && [] + left == left;
  }

  lemma {:induction false} NothingLost(rows: seq<Row>, selected: Row -> bool, others: Row -> bool, same: Row -> Row)
    requires forall row :: others(row) == !selected(row)
    requires forall row :: same(row) == row
    ensures multiset(Changed(rows, others, same)) + multiset(Changed(rows, selected, same)) == multiset(rows)
  {
    if rows != [] {
      var first, rest := rows[0], rows[1..];
      var left, gone := Changed(rest, others, same), Changed(rest, selected, same);
      NothingLost(rest, selected, others, same);
      assert rows == [first] + rest;
      assert Changed(rows, selected, same) == (if selected(first) then [same(first)] else []) + gone;
      assert Changed(rows, others, same) == (if others(first) then [same(first)] else []) + left;
      hide Changed;
      OneMoreRow(first, left, gone, rest);
    }
  }

  lemma {:induction false} SameEffect(rows: seq<Row>, s: Row -> bool, s': Row -> bool, c: Row -> Row, c': Row -> Row)
    requires forall row :: s(row) == s'(row)
    requires forall row :: c(row) == c'(row)
    ensures Rewrite(rows, s, c) == Rewrite(rows, s', c') && Changed(rows, s, c) == Changed(rows, s', c')
  {
    if rows != [] {
      SameEffect(rows[1..], s, s', c, c');
    }
  }

  // -------------------------------------------------------------------------
  // What the statements do
  // -------------------------------------------------------------------------

  function Assigns(keys: seq<string>, from: nat): (a: seq<(string, nat)>)
    ensures |a| == |keys|
  {
    seq(|keys|, i requires 0 <= i < |keys| => (keys[i], from + i))
  }

  lemma SetsStep(name: string, k: nat, rest: seq<Token>)
    ensures !Starts(rest, Comma) ==>
      ParseSets([Name(name), Op(Eq), Param(k)] + rest) == SetsParsed([(name, k)], rest)
    ensures ParseSets([Name(name), Op(Eq), Param(k)] + ([Comma] + rest)) ==
      match ParseSets(rest)
      case NoSets => NoSets
      case SetsParsed(more, left) => SetsParsed([(name, k)] + more, left)
  {
    var first := [Name(name), Op(Eq), Param(k)];
    assert (first + rest)[3..] == rest;
    assert (first + ([Comma] + rest))[3..] == [Comma] + rest && (first + ([Comma] + rest))[4..] == rest;
  }

  // `parts` is SetParts, or a tail of it
  lemma {:induction false} SetsParse(parts: seq<seq<Token>>, keys: seq<string>, from: nat, rest: seq<Token>)
    requires keys != [] && |parts| == |keys| && !Starts(rest, Comma)
    requires forall i :: 0 <= i < |keys| ==> parts[i] == [Name(keys[i]), Op(Eq), Param(from + i)]
    ensures ParseSets(Strings.Join(parts, [Comma]) + rest) == SetsParsed(Assigns(keys, from), rest)
    decreases |keys|
  {
    hide ParseSets;
    if |keys| == 1 {
      SetsStep(keys[0], from, rest);
      assert Assigns(keys, from) == [(keys[0], from)];
    } else {
      var more := Strings.Join(parts[1..], [Comma]) + rest;
      assert Strings.Join(parts, [Comma]) + rest == parts[0] + ([Comma] + more);
      SetsStep(keys[0], from, more);
      SetsParse(parts[1..], keys[1..], from + 1, rest);
      assert Assigns(keys, from) == [(keys[0], from)] + Assigns(keys[1..], from + 1);
    }
  }

  // The coerced values of the first n keys
  ghost function FirstCoerced(payload: Dict, iso: IsoParser, n: nat): map<string, Value>
    requires payload.Valid() && n <= |payload.keys|
  {
    map c | c in payload.keys[..n] :: payload.Coerced(iso)[c]
  }

  lemma MoreCoerced(payload: Dict, iso: IsoParser, n: nat)
    requires payload.Valid() && n < |payload.keys|
    ensures FirstCoerced(payload, iso, 0) == map[]
    ensures payload.keys[n] in payload.vals
    ensures FirstCoerced(payload, iso, n + 1)
      == FirstCoerced(payload, iso, n)[payload.keys[n] := Coerce(iso, payload.vals[payload.keys[n]])]
  {
    hide Coerce;
    assert payload.keys[n] in payload.keys;
    assert payload.keys[..n + 1] == payload.keys[..n] + [payload.keys[n]];
  }

  lemma NoneCoerced(payload: Dict, iso: IsoParser)
    requires payload.Valid()
    ensures FirstCoerced(payload, iso, 0) == map[]
    ensures FirstCoerced(payload, iso, |payload.keys|) == payload.Coerced(iso)
  {
    hide Coerce;
    assert payload.keys[..|payload.keys|] == payload.keys;
  }

  // Assigning the payload's parameters overlays the row with the coerced payload
  lemma {:induction false} AssignOverlays(row: Row, payload: Dict, iso: IsoParser, params: seq<Value>, n: nat)
    requires payload.Valid() && n <= |payload.keys|
    requires |params| >= |payload.keys| && params[..|payload.keys|] == CoerceAll(iso, payload.Values())
    ensures Assign(row, Assigns(payload.keys, 1)[..n], params) == row + FirstCoerced(payload, iso, n)
  {
    hide Coerce, FirstCoerced;
    if n == 0 {
      NoneCoerced(payload, iso);
    } else {
      var key := payload.keys[n - 1];
      var assigns := Assigns(payload.keys, 1)[..n];
      AssignOverlays(row, payload, iso, params, n - 1);
      MoreCoerced(payload, iso, n - 1);
      assert assigns[..n - 1] == Assigns(payload.keys, 1)[..n - 1] && assigns[n - 1] == (key, n);
      assert params[n - 1] == params[..|payload.keys|][n - 1];
      assert params[n - 1] == Coerce(iso, payload.vals[key]);
    }
  }

  /** The condition text of a statement selects exactly the rows on which every filter is true. */
  ghost predicate Holds(db: Db, iso: IsoParser, fs: seq<Filter>, row: Row)
  {
    forall i :: 0 <= i < |fs| ==> FilterTv(db, iso, row, fs[i]) == True
  }

  lemma WhereStarts(fs: seq<Filter>, bound: nat)
    requires fs != []
    ensures Starts(WhereTokens(fs, bound), KwWhere)
  {
  }

  lemma TailSelects(db: Db, iso: IsoParser, fs: seq<Filter>, before: seq<Value>)
    requires fs != [] && FirstError(fs) == None
    ensures
      var params := Bind(iso, before, AllOperands(fs));
      var tail := ParseTail(WhereTokens(fs, |before|) + [KwReturning, Star]);
      && tail.Some?
      && forall row :: Selects(db, tail.value, row, params) <==> Holds(db, iso, fs, row)
  {
    hide FilterConds, FilterTv, AllOperands, FirstError, ParseOr, CoerceAll, Eval, WhereTokens;
    var params := Bind(iso, before, AllOperands(fs));
    var where := WhereTokens(fs, |before|);
    WhereStarts(fs, |before|);
    var cond := AndAll(FilterConds(fs, |before| + 1));
    WhereParses(fs, |before|, [KwReturning, Star]);
    WhereParses(fs, |before|, []);
    assert (where + [KwReturning, Star])[1..] == where[1..] + [KwReturning, Star];
    assert where[1..] + [] == where[1..];
    forall row ensures Selects(db, Some(cond), row, params) <==> Holds(db, iso, fs, row) {
      WhereMeaning(db, iso, row, fs, before);
    }
  }

  lemma UpdateShape(table: string, keys: seq<string>, fs: seq<Filter>)
    ensures UpdateTokens(table, keys, fs)
      == [KwUpdate, Name(table), KwSet] + Strings.Join(SetParts(keys), [Comma]) + WhereTokens(fs, |keys|) + [KwReturning, Star]
  {
    hide Strings.Join, SetParts, WhereTokens;
  }

  lemma NoSetsBeforeWhere(tail: seq<Token>, where: seq<Token>)
    requires Starts(where, KwWhere) && tail == where + [KwReturning, Star]
    ensures !Starts(tail, Comma) && ParseSets(tail) == NoSets
    ensures Strings.Join(SetParts([]), [Comma]) + tail == tail
  {
  }

  lemma Reassociate(head: seq<Token>, a: seq<Token>, b: seq<Token>, c: seq<Token>)
    ensures head + a + b + c == head + (a + (b + c))
    ensures (head + a + b + c)[|head|..] == a + (b + c)
  {
  }

  // The parts of an UPDATE text
  lemma UpdateParses(table: string, keys: seq<string>, fs: seq<Filter>)
    requires fs != []
    ensures
      var text := UpdateTokens(table, keys, fs);
      && |text| >= 3 && text[0] == KwUpdate && text[1] == Name(table) && text[2] == KwSet
      && ParseSets(text[3..]) == if keys == [] then NoSets else
           SetsParsed(Assigns(keys, 1), WhereTokens(fs, |keys|) + [KwReturning, Star])
  {
    WhereStarts(fs, |keys|);
    hide *;
    var tail := WhereTokens(fs, |keys|) + [KwReturning, Star];
    NoSetsBeforeWhere(tail, WhereTokens(fs, |keys|));
    UpdateShape(table, keys, fs);
    var sets := Strings.Join(SetParts(keys), [Comma]);
    Reassociate([KwUpdate, Name(table), KwSet], sets, WhereTokens(fs, |keys|), [KwReturning, Star]);
    if keys != [] {
      SetsParse(SetParts(keys), keys, 1, tail);
    }
  }

  // The outer shape of an UPDATE and of its parameters
  lemma UpdateFacts(iso: IsoParser, table: string, payload: Dict, fs: seq<Filter>)
    requires payload.Valid() && UpdateError(table, payload.keys, fs) == None
    ensures fs != [] && FirstError(fs) == None
    ensures
      var before := CoerceAll(iso, payload.Values());
      && |before| == |payload.keys|
      && UpdateParams(iso, payload, fs) == Bind(iso, before, AllOperands(fs))
      && |UpdateParams(iso, payload, fs)| == |payload.keys| + |AllOperands(fs)|
      && UpdateParams(iso, payload, fs)[..|payload.keys|] == before
  {
    hide BadName, IsIdent, FirstError, AllOperands, Coerce;
    BindMore(iso, CoerceAll(iso, payload.Values()), AllOperands(fs), []);
  }

  lemma ExecUnfolds(db: Db, ts: seq<Token>, params: seq<Value>, rows: seq<Row>)
    requires |ts| >= 3 && ts[0] == KwUpdate && ts[1].Name? && ts[2] == KwSet
    ensures ParseSets(ts[3..]).NoSets? ==> ExecUpdate(db, ts, params, rows) == Rejected
    ensures ParseSets(ts[3..]).SetsParsed? && ParseTail(ParseSets(ts[3..]).rest).Some? ==>
      var assigns := ParseSets(ts[3..]).assigns;
      var cond := ParseTail(ParseSets(ts[3..]).rest).value;
      ExecUpdate(db, ts, params, rows) == Applied(
          Rewrite(rows, row => Selects(db, cond, row, params), row => Assign(row, assigns, params)),
          Changed(rows, row => Selects(db, cond, row, params), row => Assign(row, assigns, params)))
  {
    hide ParseSets, ParseTail, Selects, Assign, Rewrite, Changed;
  }

  lemma {:induction false} UpdateEffect(db: Db, iso: IsoParser, table: string, payload: Dict, fs: seq<Filter>, rows: seq<Row>)
    requires payload.Valid() && UpdateError(table, payload.keys, fs) == None
    ensures ExecUpdate(db, UpdateTokens(table, payload.keys, fs), UpdateParams(iso, payload, fs), rows)
      == if payload.keys == [] then Rejected else
         Applied(
           Rewrite(rows, row => Holds(db, iso, fs, row), row => row + payload.Coerced(iso)),
           Changed(rows, row => Holds(db, iso, fs, row), row => row + payload.Coerced(iso)))
  {
    hide *;
    var keys, before := payload.keys, CoerceAll(iso, payload.Values());
    var params := UpdateParams(iso, payload, fs);
    UpdateFacts(iso, table, payload, fs);
    UpdateParses(table, keys, fs);
    if keys != [] {
      TailSelects(db, iso, fs, before);
      var cond := ParseTail(WhereTokens(fs, |keys|) + [KwReturning, Star]).value;
      var assigns := Assigns(keys, 1);
      forall row ensures Assign(row, assigns, params) == row + payload.Coerced(iso) {
        AssignOverlays(row, payload, iso, params, |keys|);
        NoneCoerced(payload, iso);
        assert assigns[..|keys|] == assigns;
      }
      SameEffect(rows, row => Selects(db, cond, row, params), row => Holds(db, iso, fs, row),
        row => Assign(row, assigns, params), row => row + payload.Coerced(iso));
    }
    ExecUnfolds(db, UpdateTokens(table, keys, fs), params, rows);
  }

  lemma {:induction false} DeleteEffect(db: Db, iso: IsoParser, table: string, fs: seq<Filter>, rows: seq<Row>)
    requires DeleteError(table, fs) == None
    ensures ExecDelete(db, DeleteTokens(table, fs), Bind(iso, [], AllOperands(fs)), rows)
      == Applied(Changed(rows, row => !Holds(db, iso, fs, row), row => row),
                 Changed(rows, row => Holds(db, iso, fs, row), row => row))
  {
    hide FilterTv, AllOperands, FirstError, ParseOr, WhereTokens, Holds, Selects, IsIdent, ParseTail, Rewrite, Changed;
    var tail := WhereTokens(fs, 0) + [KwReturning, Star];
    var params := Bind(iso, [], AllOperands(fs));
    assert DeleteTokens(table, fs) == [KwDelete, KwFrom, Name(table)] + tail;
    assert DeleteTokens(table, fs)[3..] == tail;
    TailSelects(db, iso, fs, []);
    var cond := ParseTail(tail).value;
    SameEffect(rows, row => Selects(db, cond, row, params), row => Holds(db, iso, fs, row), row => row, row => row);
    SameEffect(rows, row => !Selects(db, cond, row, params), row => !Holds(db, iso, fs, row), row => row, row => row);
  }

  lemma PicksSelected(rows: seq<Row>, selected: Row -> bool, at: seq<nat>)
    requires Picks(rows, selected, at)
    ensures forall k :: 0 <= k < |at| ==> at[k] < |rows| && selected(rows[at[k]])
  {
  }

  /** Executing the UPDATE text leaves every row in its place. A row on which every filter is true
      holds the coerced value in each column of the payload and keeps its other columns; every other
      row is untouched. What is returned are the new rows that were selected, in order. An empty
      payload is not valid SQL. */
  lemma {:induction false} UpdateMeaning(db: Db, iso: IsoParser, table: string, payload: Dict, fs: seq<Filter>, rows: seq<Row>)
    requires payload.Valid() && UpdateError(table, payload.keys, fs) == None
    ensures
      var e := ExecUpdate(db, UpdateTokens(table, payload.keys, fs), UpdateParams(iso, payload, fs), rows);
      && (payload.keys == [] ==> e == Rejected)
      && (payload.keys != [] ==>
        && e.Applied? && |e.rows| == |rows|
        && (forall i :: 0 <= i < |rows| && !Holds(db, iso, fs, rows[i]) ==> e.rows[i] == rows[i])
        && (forall i :: 0 <= i < |rows| && Holds(db, iso, fs, rows[i]) ==>
            forall c :: Column(e.rows[i], c) ==
              if c in payload.keys then Coerce(iso, payload.vals[c]) else Column(rows[i], c))
        && SelectedFrom(rows, row => Holds(db, iso, fs, row), e.rows, e.returned))
  {
    hide FilterTv, Holds, ExecUpdate, UpdateTokens, UpdateParams, UpdateError, Picks, Rewrite, Changed, Positions, Coerce;
    UpdateEffect(db, iso, table, payload, fs, rows);
    if payload.keys != [] {
      var selected, change := (row: Row) => Holds(db, iso, fs, row), (row: Row) => row + payload.Coerced(iso);
      RewriteAt(rows, selected, change);
      ChangedAt(rows, selected, change);
      PositionsPick(rows, selected);
      var at := Positions(rows, selected);
      PicksSelected(rows, selected, at);
      var e := ExecUpdate(db, UpdateTokens(table, payload.keys, fs), UpdateParams(iso, payload, fs), rows);
      assert Picks(rows, row => Holds(db, iso, fs, row), at);
    }
  }

  /** Executing the DELETE text returns exactly the rows on which every filter is true and leaves
      exactly the others, both in their order; no row is lost or duplicated. */
  lemma {:induction false} DeleteMeaning(db: Db, iso: IsoParser, table: string, fs: seq<Filter>, rows: seq<Row>)
    requires DeleteError(table, fs) == None
    ensures
      var e := ExecDelete(db, DeleteTokens(table, fs), Bind(iso, [], AllOperands(fs)), rows);
      && e.Applied?
      && multiset(e.rows) + multiset(e.returned) == multiset(rows)
      && SelectedFrom(rows, row => Holds(db, iso, fs, row), rows, e.returned)
      && SelectedFrom(rows, row => !Holds(db, iso, fs, row), rows, e.rows)
  {
    hide FilterTv, Holds, ExecDelete, DeleteTokens, DeleteError, Picks, Changed, Positions, AllOperands;
    DeleteEffect(db, iso, table, fs, rows);
    var selected, others := (row: Row) => Holds(db, iso, fs, row), (row: Row) => !Holds(db, iso, fs, row);
    NothingLost(rows, selected, others, row => row);
    ChangedAt(rows, selected, row => row);
    ChangedAt(rows, others, row => row);
    PositionsPick(rows, selected);
    PositionsPick(rows, others);
    PicksSelected(rows, selected, Positions(rows, selected));
    PicksSelected(rows, others, Positions(rows, others));
    assert Picks(rows, row => Holds(db, iso, fs, row), Positions(rows, selected));
    assert Picks(rows, row => !Holds(db, iso, fs, row), Positions(rows, others));
  }

  lemma {:induction false} SetPlaceholders(keys: seq<string>)
    ensures Placeholders(Strings.Join(SetParts(keys), [Comma])) == Numbers(1, |keys|)
  {
    NothingJoined([Comma]);
    hide Strings.Join;
    if keys != [] {
      hide Placeholders;
      var front, last := keys[..|keys| - 1], [Name(keys[|keys| - 1]), Op(Eq), Param(|keys|)];
      assert SetParts(keys) == SetParts(front) + [last];
      hide SetParts;
      SetPlaceholders(front);
      JoinedPlaceholders(SetParts(front), last, Comma);
      OnePlaceholder(last, 2);
      NumbersAppend(1, |front|, 1);
    }
  }

  lemma FramePlaceholders(table: string, keys: seq<string>, fs: seq<Filter>)
    ensures UpdateTokens(table, keys, fs)
      == [KwUpdate, Name(table), KwSet] + Strings.Join(SetParts(keys), [Comma]) + WhereTokens(fs, |keys|) + [KwReturning, Star]
    ensures Placeholders([KwUpdate, Name(table), KwSet]) == [] && Placeholders([KwReturning, Star]) == []
  {
    hide Strings.Join, SetParts, WhereTokens;
    OnePlaceholder([KwUpdate, Name(table), KwSet], -1);
    OnePlaceholder([KwReturning, Star], -1);
  }

  /** SET values and WHERE operands share one numbering: the placeholders of an UPDATE are
      $1, $2, ... in text order, one for each parameter. */
  lemma {:induction false} UpdatePlaceholders(iso: IsoParser, table: string, payload: Dict, fs: seq<Filter>)
    requires payload.Valid() && UpdateError(table, payload.keys, fs) == None
    ensures Placeholders(UpdateTokens(table, payload.keys, fs)) == Numbers(1, |UpdateParams(iso, payload, fs)|)
  {
    hide *;
    var keys := payload.keys;
    var sets, where := Strings.Join(SetParts(keys), [Comma]), WhereTokens(fs, |keys|);
    UpdateFacts(iso, table, payload, fs);
    SetPlaceholders(keys);
    WherePlaceholders(fs, |keys|);
    NumbersAppend(1, |keys|, |AllOperands(fs)|);
    FramePlaceholders(table, keys, fs);
    PlaceholdersAppend([KwUpdate, Name(table), KwSet] + sets + where, [KwReturning, Star]);
    PlaceholdersAppend([KwUpdate, Name(table), KwSet] + sets, where);
    PlaceholdersAppend([KwUpdate, Name(table), KwSet], sets);
  }
}
