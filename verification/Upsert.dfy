/** The upsert branch: a row-by-row INSERT ... ON CONFLICT DO UPDATE loop as a keyed merge. */
module Upsert {
  import opened Wrappers
  import Strings
  import opened OrExpression
  import opened SqlSyntax
  import opened FilterCompiler
  import opened Statements

  /** One emitted statement; `excluded` lists the columns set to their EXCLUDED value. */
  datatype InsertStatement = InsertStatement(
    table: string, cols: seq<string>, values: seq<Token>, conflict: seq<string>, excluded: seq<string>)

  type Key = seq<Value>

  function KeyOf(row: Row, cols: seq<string>): Key
  {
    seq(|cols|, i requires 0 <= i < |cols| => Column(row, cols[i]))
  }

  // A key with a NULL in it never conflicts
  predicate NullFree(key: Key) { Null !in key }

  // Index of the first row with this key, or |rows|
  function At(rows: seq<Row>, cols: seq<string>, key: Key): (i: nat)
    ensures i <= |rows|
    ensures i < |rows| ==> KeyOf(rows[i], cols) == key
    ensures forall j :: 0 <= j < i ==> KeyOf(rows[j], cols) != key
  {
    if rows == [] || KeyOf(rows[0], cols) == key then 0 else 1 + At(rows[1..], cols, key)
  }

  // -------------------------------------------------------------------------
  // Executing one statement
  // -------------------------------------------------------------------------

  function Proposed(cols: seq<string>, values: seq<Token>, params: seq<Value>): Row
    requires |cols| == |values|
  {
    if cols == [] then map[] else
    var last := |cols| - 1;
    Proposed(cols[..last], values[..last], params)
      [cols[last] := if values[last].Param? then Argument(params, values[last].k) else Null]
  }

  function SetExcluded(row: Row, cols: seq<string>, proposed: Row): Row
  {
    if cols == [] then row
    else SetExcluded(row, cols[..|cols| - 1], proposed)[cols[|cols| - 1] := Column(proposed, cols[|cols| - 1])]
  }

  /** The table after the statement, and the row that RETURNING * gives. */
  function Exec(ins: InsertStatement, params: seq<Value>, rows: seq<Row>): (seq<Row>, Row)
    requires |ins.cols| == |ins.values|
  {
    var proposed := Proposed(ins.cols, ins.values, params);
    var key := KeyOf(proposed, ins.conflict);
    var i := At(rows, ins.conflict, key);
    if NullFree(key) && i < |rows| then
      var merged := SetExcluded(rows[i], ins.excluded, proposed);
      (rows[i := merged], merged)
    else (rows + [proposed], proposed)
  }

  // -------------------------------------------------------------------------
  // The keyed merge
  // -------------------------------------------------------------------------

  /** Overlay the row that holds the key, or add a new row. */
  function Merge(rows: seq<Row>, cols: seq<string>, row: Row): seq<Row>
  {
    var key := KeyOf(row, cols);
    var i := At(rows, cols, key);
    if NullFree(key) && i < |rows| then rows[i := rows[i] + row] else rows + [row]
  }

  function MergeAll(rows: seq<Row>, cols: seq<string>, payload: seq<Row>): seq<Row>
  {
    if payload == [] then rows
    else Merge(MergeAll(rows, cols, payload[..|payload| - 1]), cols, payload[|payload| - 1])
  }

  // The row a merge leaves behind for its payload row
  function Merged(rows: seq<Row>, cols: seq<string>, row: Row): Row
  {
    var i := At(rows, cols, KeyOf(row, cols));
    if NullFree(KeyOf(row, cols)) && i < |rows| then rows[i] + row else row
  }

  function CoercedRows(iso: IsoParser, payload: seq<Dict>): (rows: seq<Row>)
    ensures |rows| == |payload|
  {
    seq(|payload|, i requires 0 <= i < |payload| =>
      map c | c in payload[i].vals :: Coerce(iso, payload[i].vals[c]))
  }

  // -------------------------------------------------------------------------
  // The loop
  // -------------------------------------------------------------------------

  /** The rows stored in one database table. */
  class Table {
    var rows: seq<Row>
  }

  /** `_UPSERT_CONFLICT_COLS` */
  function DefaultConflict(table: string): string
  {
    if table == "exam_sessions" then "session_key"
    else if table == "answers" then "session_key,question_id"
    else if table == "questions" then "teacher_id,exam_id,question_id"
    else if table == "exam_config" then "teacher_id,exam_id"
    else if table == "student_group_members" then "group_id,student_id"
    else if table == "exam_group_assignments" then "exam_id,group_id"
    else "id"
  }

  function NonBlank(pieces: seq<string>): seq<string>
  {
    if pieces == [] then [] else
    var p := Strings.Strip(pieces[0]);
    (if p == "" then [] else [p]) + NonBlank(pieces[1..])
  }

  // An absent or empty override falls back to the table's default
  function ConflictColumns(table: string, override: string): seq<string>
  {
    NonBlank(Strings.Split(if override == "" then DefaultConflict(table) else override, ','))
  }

  // Names that a comma-separated list can hold as they are
  predicate CleanName(name: string)
  {
    name != "" && ',' !in name && forall i :: 0 <= i < |name| ==> !Strings.IsSpace(name[i])
  }

  lemma CleanStrip(name: string)
    requires CleanName(name)
    ensures Strings.Strip(name) == name && name != "" && ',' !in name
  {
    Strings.StripClean(name);
  }

  lemma {:induction false} ListedNames(names: seq<string>)
    requires names != [] && forall i :: 0 <= i < |names| ==> CleanName(names[i])
    ensures NonBlank(Strings.Split(Strings.Join(names, ","), ',')) == names
  {
    hide Strings.Split, Strings.Strip, CleanName;
    Strings.SplitJoined(names, ',');
    assert CleanName(names[0]);
    CleanStrip(names[0]);
    if |names| == 1 {
      assert names[1..] == [];
    } else {
      ListedNames(names[1..]);
      var rest := Strings.Split(Strings.Join(names[1..], ","), ',');
      assert ([names[0]] + rest)[1..] == rest;
    }
  }

  /** The unique key of each table: six tables have one of their own, every other one uses id. */
  function KeyColumns(table: string): seq<string>
  {
    if table == "exam_sessions" then ["session_key"]
    else if table == "answers" then ["session_key", "question_id"]
    else if table == "questions" then ["teacher_id", "exam_id", "question_id"]
    else if table == "exam_config" then ["teacher_id", "exam_id"]
    else if table == "student_group_members" then ["group_id", "student_id"]
    else if table == "exam_group_assignments" then ["exam_id", "group_id"]
    else ["id"]
  }

  lemma TwoListed(a: string, b: string)
    ensures Strings.Join([a, b], ",") == a + "," + b
  {
    assert [a, b][1..] == [b];
  }

  lemma ThreeListed(a: string, b: string, c: string)
    ensures Strings.Join([a, b, c], ",") == a + "," + (b + "," + c)
  {
    assert [a, b, c][1..] == [b, c];
    TwoListed(b, c);
  }

  lemma OneListed(a: string)
    ensures Strings.Join([a], ",") == a
  {
  }

  lemma ListTexts()
    ensures "session_key" + "," + "question_id" == "session_key,question_id"
    ensures "teacher_id" + "," + "exam_id" == "teacher_id,exam_id"
    ensures "group_id" + "," + "student_id" == "group_id,student_id"
    ensures "exam_id" + "," + "group_id" == "exam_id,group_id"
  {
  }

  lemma QuestionText()
    ensures "teacher_id" + "," + ("exam_id" + "," + "question_id") == "teacher_id,exam_id,question_id"
  {
  }

  lemma KeyColumnsListed(table: string)
    ensures DefaultConflict(table) == Strings.Join(KeyColumns(table), ",")
  {
    hide Strings.Join;
    ListTexts();
    QuestionText();
    TwoListed("session_key", "question_id");
    ThreeListed("teacher_id", "exam_id", "question_id");
    TwoListed("teacher_id", "exam_id");
    TwoListed("group_id", "student_id");
    TwoListed("exam_id", "group_id");
    OneListed("session_key");
    OneListed("id");
  }

  lemma LettersAreClean(name: string)
    requires name != "" && forall i :: 0 <= i < |name| ==> 'a' <= name[i] <= 'z' || name[i] == '_'
    ensures CleanName(name)
  {
  }

  lemma CleanNames()
    ensures CleanName("session_key") && CleanName("question_id") && CleanName("teacher_id") && CleanName("exam_id")
    ensures CleanName("group_id") && CleanName("student_id") && CleanName("id")
  {
    LettersAreClean("session_key");
    LettersAreClean("question_id");
    LettersAreClean("teacher_id");
    LettersAreClean("exam_id");
    LettersAreClean("group_id");
    LettersAreClean("student_id");
    LettersAreClean("id");
    hide CleanName;
  }

  lemma KeyColumnsClean(table: string)
    ensures KeyColumns(table) != [] && forall i :: 0 <= i < |KeyColumns(table)| ==> CleanName(KeyColumns(table)[i])
  {
    hide CleanName;
    CleanNames();
  }

  /** Without on_conflict an upsert conflicts on the table's unique key. */
  lemma {:induction false} DefaultColumns(table: string)
    ensures ConflictColumns(table, "") == KeyColumns(table)
  {
    hide DefaultConflict, KeyColumns, NonBlank, Strings.Split, CleanName;
    KeyColumnsListed(table);
    KeyColumnsClean(table);
    ListedNames(KeyColumns(table));
  }

  // `cols` are the pieces that are not blank, trimmed, in order
  ghost predicate TrimmedPieces(pieces: seq<string>, cols: seq<string>)
  {
    exists at: seq<nat> ::
      && |at| == |cols|
      && (forall k, l :: 0 <= k < l < |at| ==> at[k] < at[l])
      && (forall k :: 0 <= k < |at| ==> at[k] < |pieces| && cols[k] == Strings.Strip(pieces[at[k]]))
      && (forall i :: 0 <= i < |pieces| ==> (i in at <==> Strings.Strip(pieces[i]) != ""))
  }

  function Filled(pieces: seq<string>): seq<nat>
  {
    if pieces == [] then [] else
    Filled(pieces[..|pieces| - 1]) + if Strings.Strip(pieces[|pieces| - 1]) == "" then [] else [|pieces| - 1]
  }

  lemma {:induction false} NonBlankAppend(pieces: seq<string>, last: string)
    ensures NonBlank(pieces + [last])
      == NonBlank(pieces) + if Strings.Strip(last) == "" then [] else [Strings.Strip(last)]
  {
    hide Strings.Strip;
    if pieces == [] {
      assert ([] + [last])[1..] == [];
    } else {
      assert (pieces + [last])[1..] == pieces[1..] + [last];
      NonBlankAppend(pieces[1..], last);
    }
  }

  lemma {:induction false} NonBlankFilled(pieces: seq<string>)
    ensures
      var at, cols := Filled(pieces), NonBlank(pieces);
      && |at| == |cols|
      && (forall k, l :: 0 <= k < l < |at| ==> at[k] < at[l])
      && (forall k :: 0 <= k < |at| ==> at[k] < |pieces| && cols[k] == Strings.Strip(pieces[at[k]]))
      && (forall i :: 0 <= i < |pieces| ==> (i in at <==> Strings.Strip(pieces[i]) != ""))
  {
    hide Strings.Strip;
    if pieces != [] {
      var front, last := pieces[..|pieces| - 1], pieces[|pieces| - 1];
      NonBlankFilled(front);
      NonBlankAppend(front, last);
      assert pieces == front + [last];
    }
  }

  /** A non-empty on_conflict wins over the table's default: its comma-separated pieces, trimmed,
      without the blank ones, in order. */
  lemma {:induction false} OverrideColumns(table: string, override: string)
    requires override != ""
    ensures TrimmedPieces(Strings.Split(override, ','), ConflictColumns(table, override))
  {
    var pieces := Strings.Split(override, ',');
    NonBlankFilled(pieces);
    hide NonBlank, Filled, Strings.Split;
    var at := Filled(pieces);
    assert |at| == |ConflictColumns(table, override)|;
  }

  function Without(cols: seq<string>, drop: seq<string>): (r: seq<string>)
    ensures forall c :: c in r <==> c in cols && c !in drop
  {
    if cols == [] then []
    else Without(cols[..|cols| - 1], drop) + (if cols[|cols| - 1] in drop then [] else [cols[|cols| - 1]])
  }

  // The error that one payload row raises, in the order in which its text is built
  function RowError(table: string, conflict: seq<string>, keys: seq<string>): Option<SqlError>
  {
    var updates := Without(keys, conflict);
    if BadName(updates) != None then BadName(updates)
    else if updates == [] && conflict == [] then Some(InvalidStatement)
    else if updates == [] && !IsIdent(conflict[0]) then Some(UnsafeIdentifier(conflict[0]))
    else if !IsIdent(table) then Some(UnsafeIdentifier(table))
    else if BadName(keys) != None then BadName(keys)
    else if BadName(conflict) != None then BadName(conflict)
    else if keys == [] || conflict == [] then Some(InvalidStatement)
    else None
  }

  function ParamTokens(n: nat): (ts: seq<Token>)
    ensures |ts| == n
  {
    seq(n, i requires 0 <= i < n => Param(i + 1))
  }

  function StatementFor(table: string, conflict: seq<string>, keys: seq<string>): InsertStatement
    requires conflict != []
  {
    var updates := Without(keys, conflict);
    InsertStatement(table, keys, ParamTokens(|keys|), conflict, if updates == [] then [conflict[0]] else updates)
  }

  // `_ident` on each of some names
  method CheckNames(names: seq<string>) returns (error: Option<SqlError>)
    ensures error == BadName(names)
  {
    hide IsIdent;
    for i := 0 to |names|
      invariant BadName(names[..i]) == None
    {
      assert names[..i + 1][..i] == names[..i];
      if !IsIdent(names[i]) {
        BadNameAt(names, i + 1);
        return Some(UnsafeIdentifier(names[i]));
      }
    }
    assert names[..|names|] == names;
    error := None;
  }

  // [c for c in cols if c not in conflict_cols]
  method UpdateColumns(cols: seq<string>, conflict: seq<string>) returns (updates: seq<string>)
    ensures updates == Without(cols, conflict)
  {
    updates := [];
    for i := 0 to |cols|
      invariant updates == Without(cols[..i], conflict)
    {
      assert cols[..i + 1][..i] == cols[..i];
      if cols[i] !in conflict {
        updates := updates + [cols[i]];
      }
    }
    assert cols[..|cols|] == cols;
  }

  method StatementText(table: string, conflict: seq<string>, cols: seq<string>, placeholders: seq<Token>)
    returns (r: Result<InsertStatement, SqlError>)
    requires placeholders == ParamTokens(|cols|)
    ensures match RowError(table, conflict, cols)
      case Some(e) => r == Err(e)
      case None =>
        && conflict != [] && r == Ok(StatementFor(table, conflict, cols))
        && |r.value.cols| == |r.value.values|
  {
    hide BadName, IsIdent, Without;
    var updates := UpdateColumns(cols, conflict);
    var error := CheckNames(updates);
    if error.Some? {
      return Err(error.value);
    }
    if updates == [] {
      if conflict == [] {
        return Err(InvalidStatement);
      }
      if !IsIdent(conflict[0]) {
        return Err(UnsafeIdentifier(conflict[0]));
      }
      updates := [conflict[0]];
    }
    if !IsIdent(table) {
      return Err(UnsafeIdentifier(table));
    }
    error := CheckNames(cols);
    if error.Some? {
      return Err(error.value);
    }
    error := CheckNames(conflict);
    if error.Some? {
      return Err(error.value);
    }
    // the database rejects an empty column list
    if cols == [] || conflict == [] {
      return Err(InvalidStatement);
    }
    r := Ok(InsertStatement(table, cols, placeholders, conflict, updates));
  }

  /** One turn of the upsert loop up to its statement: the first error in the order in which the text
      is built, or the statement and its parameters. */
  method BuildInsert(sql: Sql, table: string, conflict: seq<string>, row: Dict) returns (r: Result<InsertStatement, SqlError>)
    requires row.Valid() && sql.params == []
    modifies sql
    ensures match RowError(table, conflict, row.keys)
      case Some(e) => r == Err(e)
      case None =>
        && conflict != [] && r == Ok(StatementFor(table, conflict, row.keys))
        && |r.value.cols| == |r.value.values|
        && sql.params == CoerceAll(sql.iso, row.Values())
  {
    hide Coerce, BadName, IsIdent;
    var placeholders: seq<Token> := [];
    var i := 0;
    assert CoerceAll(sql.iso, row.Values()[..0]) == [];
    while i < |row.keys|
      invariant 0 <= i <= |row.keys|
      invariant sql.params == CoerceAll(sql.iso, row.Values()[..i])
      invariant placeholders == ParamTokens(i)
    {
      assert row.keys[i] in row.keys;
      var p := sql.Add(row.vals[row.keys[i]]);
      placeholders := placeholders + [p];
      assert row.Values()[..i + 1] == row.Values()[..i] + [row.vals[row.keys[i]]];
      i := i + 1;
    }
    assert row.Values()[..i] == row.Values();
    r := StatementText(table, conflict, row.keys, placeholders);
  }

  lemma NothingMerged(was: seq<Row>, cols: seq<string>, rows: seq<Row>)
    ensures MergeAll(was, cols, rows[..0]) == was
  {
  }

  lemma OneMoreMerged(iso: IsoParser, was: seq<Row>, cols: seq<string>, payload: seq<Dict>, n: nat)
    requires n < |payload|
    ensures
      var rows := CoercedRows(iso, payload);
      && rows[n] == payload[n].Coerced(iso)
      && MergeAll(was, cols, rows[..n + 1]) == Merge(MergeAll(was, cols, rows[..n]), cols, rows[n])
  {
    hide Coerce, Merge;
    var rows := CoercedRows(iso, payload);
    assert rows[..n + 1][..n] == rows[..n];
  }

  // -------------------------------------------------------------------------
  // One statement is one merge
  // -------------------------------------------------------------------------

  lemma {:induction false} ProposedIsPayload(iso: IsoParser, row: Dict, n: nat)
    requires row.Valid() && n <= |row.keys|
    ensures Proposed(row.keys[..n], ParamTokens(n), CoerceAll(iso, row.Values())) == FirstCoerced(row, iso, n)
  {
    hide Coerce, FirstCoerced;
    if n == 0 {
      NoneCoerced(row, iso);
    } else {
      ProposedIsPayload(iso, row, n - 1);
      MoreCoerced(row, iso, n - 1);
      assert row.keys[..n][..n - 1] == row.keys[..n - 1] && ParamTokens(n)[..n - 1] == ParamTokens(n - 1);
    }
  }

  lemma {:induction false} SetExcludedIs(row: Row, cols: seq<string>, proposed: Row)
    requires forall c :: c in cols ==> c in proposed
    ensures SetExcluded(row, cols, proposed) == row + map c | c in cols :: proposed[c]
  {
    if cols != [] {
      var front, last := cols[..|cols| - 1], cols[|cols| - 1];
      assert cols == front + [last];
      SetExcludedIs(row, front, proposed);
      assert (map c | c in cols :: proposed[c]) == (map c | c in front :: proposed[c])[last := proposed[last]];
    }
  }

  // A present, non-null key fixes its columns in both rows
  lemma SameKeySameColumns(a: Row, b: Row, cols: seq<string>, c: string)
    requires KeyOf(a, cols) == KeyOf(b, cols) && NullFree(KeyOf(b, cols)) && c in cols
    ensures c in a && c in b && a[c] == b[c]
  {
    var i :| 0 <= i < |cols| && cols[i] == c;
    assert KeyOf(a, cols)[i] == KeyOf(b, cols)[i];
    assert KeyOf(b, cols)[i] in KeyOf(b, cols);
  }

  // Setting columns to their excluded values overlays the row when the other columns agree already
  lemma SetExcludedOverlays(old': Row, row: Row, sets: seq<string>)
    requires forall c :: c in sets ==> c in row
    requires forall c :: c in row && c !in sets ==> c in old' && old'[c] == row[c]
    ensures SetExcluded(old', sets, row) == old' + row
  {
    SetExcludedIs(old', sets, row);
    assert old' + (map c | c in sets :: row[c]) == old' + row;
  }

  // Rows with one key agree on its columns
  lemma KeyAgrees(old': Row, row: Row, conflict: seq<string>)
    requires KeyOf(old', conflict) == KeyOf(row, conflict) && NullFree(KeyOf(row, conflict))
    ensures forall c :: c in conflict ==> c in old' && c in row && old'[c] == row[c]
  {
    hide KeyOf, NullFree;
    forall c | c in conflict ensures c in old' && c in row && old'[c] == row[c] {
      SameKeySameColumns(old', row, conflict, c);
    }
  }

  lemma NothingLeft(updates: seq<string>, keys: seq<string>, conflict: seq<string>)
    requires updates == [] && forall c :: c in updates <==> c in keys && c !in conflict
    ensures forall c :: c in keys ==> c in conflict
  {
    forall c | c in keys ensures c in conflict {
      assert c !in updates;
    }
  }

  lemma SetExcludedMerges(old': Row, row: Row, keys: seq<string>, conflict: seq<string>)
    requires conflict != [] && KeyOf(old', conflict) == KeyOf(row, conflict) && NullFree(KeyOf(row, conflict))
    requires forall c :: c in keys <==> c in row
    ensures
      var updates := Without(keys, conflict);
      SetExcluded(old', if updates == [] then [conflict[0]] else updates, row) == old' + row
  {
    hide KeyOf, NullFree, Without, SetExcluded;
    KeyAgrees(old', row, conflict);
    var updates := Without(keys, conflict);
    if updates == [] {
      NothingLeft(updates, keys, conflict);
      SetExcludedOverlays(old', row, [conflict[0]]);
    } else {
      SetExcludedOverlays(old', row, updates);
    }
  }

  /** The emitted statement, executed with its own parameters, is one keyed merge. */
  lemma ExecIsMerge(iso: IsoParser, table: string, conflict: seq<string>, row: Dict, rows: seq<Row>)
    requires row.Valid() && RowError(table, conflict, row.keys) == None
    ensures conflict != []
    ensures Exec(StatementFor(table, conflict, row.keys), CoerceAll(iso, row.Values()), rows)
      == (Merge(rows, conflict, row.Coerced(iso)), Merged(rows, conflict, row.Coerced(iso)))
  {
    hide Coerce, IsIdent, BadName, FirstCoerced, SetExcluded, Proposed;
    var excluded := row.Coerced(iso);
    ProposedIsPayload(iso, row, |row.keys|);
    NoneCoerced(row, iso);
    assert row.keys[..|row.keys|] == row.keys;
    var i := At(rows, conflict, KeyOf(excluded, conflict));
    if NullFree(KeyOf(excluded, conflict)) && i < |rows| {
      SetExcludedMerges(rows[i], excluded, row.keys, conflict);
    }
  }

  /** The upsert branch of `_run_op`. Every row is its own statement: when a row raises, the rows
      before it stay merged. */
  method RunUpsert(db: Table, table: string, override: string, payload: seq<Dict>, iso: IsoParser)
    returns (data: seq<Row>, error: Option<SqlError>)
    requires forall d :: d in payload ==> d.Valid()
    modifies db
    ensures
      var conflict := ConflictColumns(table, override);
      var rows := CoercedRows(iso, payload);
      && |data| <= |payload|
      && db.rows == MergeAll(old(db.rows), conflict, rows[..|data|])
      && (forall i :: 0 <= i < |data| ==>
          RowError(table, conflict, payload[i].keys) == None
          && data[i] == Merged(MergeAll(old(db.rows), conflict, rows[..i]), conflict, rows[i]))
      && (if |data| == |payload| then error == None else
          error == RowError(table, conflict, payload[|data|].keys) && error != None)
  {
    hide *;
    var conflict := ConflictColumns(table, override);
    ghost var rows := CoercedRows(iso, payload);
    data := [];
    NothingMerged(db.rows, conflict, rows);
    while |data| < |payload|
      invariant |data| <= |payload|
      invariant db.rows == MergeAll(old(db.rows), conflict, rows[..|data|])
      invariant forall i :: 0 <= i < |data| ==>
        RowError(table, conflict, payload[i].keys) == None
        && data[i] == Merged(MergeAll(old(db.rows), conflict, rows[..i]), conflict, rows[i])
    {
      var row := payload[|data|];
      var sql := new Sql(iso);
      var ins := BuildInsert(sql, table, conflict, row);
      if ins.Err? {
        return data, Some(ins.error);
      }
      ExecIsMerge(iso, table, conflict, row, db.rows);
      OneMoreMerged(iso, old(db.rows), conflict, payload, |data|);
      var (after, returned) := Exec(ins.value, sql.params, db.rows);
      db.rows := after;
      data := data + [returned];
    }
    error := None;
  }

  /** `execute` for an upsert. With the session context switched on all rows share one transaction,
      which an error rolls back; otherwise the rows before the failing one stay merged. */
  method ExecuteUpsert(db: Table, table: string, override: string, payload: seq<Dict>, iso: IsoParser, sessionContext: bool)
    returns (data: seq<Row>, error: Option<SqlError>)
    requires forall d :: d in payload ==> d.Valid()
    modifies db
    ensures
      var conflict := ConflictColumns(table, override);
      var rows := CoercedRows(iso, payload);
      && |data| <= |payload|
      && (error == None <==> forall d :: d in payload ==> RowError(table, conflict, d.keys) == None)
      && (error == None ==> |data| == |payload| && db.rows == MergeAll(old(db.rows), conflict, rows))
      && (error != None && sessionContext ==> db.rows == old(db.rows))
      && (error != None && !sessionContext ==> db.rows == MergeAll(old(db.rows), conflict, rows[..|data|]))
  {
    hide *;
    var was := db.rows;
    data, error := RunUpsert(db, table, override, payload, iso);
    if error == None {
      ghost var rows := CoercedRows(iso, payload);
      assert rows[..|rows|] == rows;
    } else if sessionContext {
      db.rows := was;
    }
  }

  // -------------------------------------------------------------------------
  // What the loop computes
  // -------------------------------------------------------------------------

  /** A unique index on the conflict columns: NULL keys may repeat. */
  ghost predicate UniqueKeys(rows: seq<Row>, cols: seq<string>)
  {
    forall i, j :: 0 <= i < j < |rows| && NullFree(KeyOf(rows[i], cols)) ==>
      KeyOf(rows[i], cols) != KeyOf(rows[j], cols)
  }

  function Lookup(rows: seq<Row>, cols: seq<string>, key: Key): Option<Row>
  {
    var i := At(rows, cols, key);
    if i < |rows| then Some(rows[i]) else None
  }

  /** What a key should hold: the old row overlaid by the payload rows of that key, in order. */
  function Overlay(start: Option<Row>, cols: seq<string>, payload: seq<Row>, key: Key): Option<Row>
  {
    if payload == [] then start else
    var before := Overlay(start, cols, payload[..|payload| - 1], key);
    var row := payload[|payload| - 1];
    if KeyOf(row, cols) != key then before
    else Some(if before.Some? then before.value + row else row)
  }

  // Overlaying a row of the same key leaves the key alone
  lemma KeyKept(a: Row, b: Row, cols: seq<string>)
    requires KeyOf(a, cols) == KeyOf(b, cols)
    ensures KeyOf(a + b, cols) == KeyOf(a, cols)
  {
    forall i | 0 <= i < |cols| ensures Column(a + b, cols[i]) == Column(a, cols[i]) {
      assert KeyOf(a, cols)[i] == KeyOf(b, cols)[i];
    }
  }

  // The position of a key is determined by any row that has it
  lemma AtUnique(rows: seq<Row>, cols: seq<string>, key: Key)
    requires UniqueKeys(rows, cols) && NullFree(key)
    ensures forall j :: 0 <= j < |rows| && KeyOf(rows[j], cols) == key ==> At(rows, cols, key) == j
  {
    hide KeyOf, NullFree;
  }

  lemma MergeStep(rows: seq<Row>, cols: seq<string>, row: Row, key: Key)
    requires UniqueKeys(rows, cols) && NullFree(key)
    ensures UniqueKeys(Merge(rows, cols, row), cols)
    ensures Lookup(Merge(rows, cols, row), cols, key) ==
      if KeyOf(row, cols) != key then Lookup(rows, cols, key)
      else Some(if Lookup(rows, cols, key).Some? then Lookup(rows, cols, key).value + row else row)
  {
    hide KeyOf, NullFree;
    var k := KeyOf(row, cols);
    var i := At(rows, cols, k);
    var after := Merge(rows, cols, row);
    if NullFree(k) && i < |rows| {
      KeyKept(rows[i], row, cols);
      assert forall j :: 0 <= j < |rows| ==> KeyOf(after[j], cols) == KeyOf(rows[j], cols);
    }
    AtUnique(after, cols, key);
    AtUnique(rows, cols, key);
    var j := At(rows, cols, key);
    if j < |rows| {
      assert KeyOf(after[j], cols) == key;
    } else if k == key {
      assert KeyOf(after[|rows|], cols) == key;
    } else {
      assert forall m :: 0 <= m < |after| ==> KeyOf(after[m], cols) != key;
    }
  }

  /** The loop keeps at most one row per key, and leaves every key holding its old row overlaid
      by its payload rows in order; columns that the payload leaves out survive. */
  lemma {:induction false} UpsertRefinesMerge(rows: seq<Row>, cols: seq<string>, payload: seq<Row>, key: Key)
    requires UniqueKeys(rows, cols) && NullFree(key)
    ensures UniqueKeys(MergeAll(rows, cols, payload), cols)
    ensures Lookup(MergeAll(rows, cols, payload), cols, key) == Overlay(Lookup(rows, cols, key), cols, payload, key)
  {
    hide KeyOf, NullFree, Merge, Lookup, UniqueKeys;
    if payload != [] {
      var front := payload[..|payload| - 1];
      UpsertRefinesMerge(rows, cols, front, key);
      MergeStep(MergeAll(rows, cols, front), cols, payload[|payload| - 1], key);
    }
  }

  lemma AnswerKeys(a: Row, b: Row)
    requires Column(a, "session_key") == Column(b, "session_key") != Null
    requires Column(a, "question_id") != Null && Column(b, "question_id") != Null
    requires Column(a, "question_id") != Column(b, "question_id")
    ensures
      var cols := ["session_key", "question_id"];
      KeyOf(a, cols) != KeyOf(b, cols) && NullFree(KeyOf(a, cols)) && NullFree(KeyOf(b, cols))
  {
    var cols := ["session_key", "question_id"];
    assert KeyOf(a, cols) == [Column(a, "session_key"), Column(a, "question_id")];
    assert KeyOf(b, cols) == [Column(b, "session_key"), Column(b, "question_id")];
  }

  lemma LookupAt(rows: seq<Row>, cols: seq<string>, key: Key) returns (i: nat)
    requires Lookup(rows, cols, key).Some?
    ensures i < |rows| && KeyOf(rows[i], cols) == key && Lookup(rows, cols, key) == Some(rows[i])
  {
    i := At(rows, cols, key);
  }

  // What two rows with different keys leave under the key of either
  lemma OverlayOfTwo(start: Option<Row>, cols: seq<string>, a: Row, b: Row, key: Key)
    requires (KeyOf(a, cols) == key) != (KeyOf(b, cols) == key)
    ensures
      var own, after := if KeyOf(a, cols) == key then a else b, Overlay(start, cols, [a, b], key);
      after.Some? && forall c :: c in own ==> c in after.value && after.value[c] == own[c]
  {
    hide KeyOf;
    assert [a, b][..1] == [a] && [a][..0] == [];
    assert Overlay(start, cols, [], key) == start;
    assert Overlay(start, cols, [a], key) == if KeyOf(a, cols) != key then start else Some(if start.Some? then start.value + a else a);
  }

  // A row that holds everything the payload row supplies
  ghost predicate Kept(rows: seq<Row>, i: nat, row: Row)
  {
    i < |rows| && forall c :: c in row ==> c in rows[i] && rows[i][c] == row[c]
  }

  lemma {:induction false} BothSurvive(rows: seq<Row>, cols: seq<string>, a: Row, b: Row)
    requires UniqueKeys(rows, cols) && KeyOf(a, cols) != KeyOf(b, cols)
    requires NullFree(KeyOf(a, cols)) && NullFree(KeyOf(b, cols))
    ensures
      var after := MergeAll(rows, cols, [a, b]);
      exists i: nat, j: nat :: i != j && Kept(after, i, a) && Kept(after, j, b)
  {
    hide Overlay, Lookup, KeyOf, NullFree, UniqueKeys, MergeAll;
    var after := MergeAll(rows, cols, [a, b]);
    UpsertRefinesMerge(rows, cols, [a, b], KeyOf(a, cols));
    UpsertRefinesMerge(rows, cols, [a, b], KeyOf(b, cols));
    OverlayOfTwo(Lookup(rows, cols, KeyOf(a, cols)), cols, a, b, KeyOf(a, cols));
    OverlayOfTwo(Lookup(rows, cols, KeyOf(b, cols)), cols, a, b, KeyOf(b, cols));
    var i := LookupAt(after, cols, KeyOf(a, cols));
    var j := LookupAt(after, cols, KeyOf(b, cols));
    assert Kept(after, i, a) && Kept(after, j, b);
  }

  /** Two answers of one session to different questions both survive an upsert without on_conflict,
      in two rows. */
  lemma {:induction false} AnswersSurvive(rows: seq<Row>, a: Row, b: Row)
    requires UniqueKeys(rows, ["session_key", "question_id"])
    requires Column(a, "session_key") == Column(b, "session_key") != Null
    requires Column(a, "question_id") != Null && Column(b, "question_id") != Null
    requires Column(a, "question_id") != Column(b, "question_id")
    ensures
      var after := MergeAll(rows, ConflictColumns("answers", ""), [a, b]);
      exists i: nat, j: nat :: i != j && Kept(after, i, a) && Kept(after, j, b)
  {
    assert KeyColumns("answers") == ["session_key", "question_id"];
    hide *;
    DefaultColumns("answers");
    AnswerKeys(a, b);
    BothSurvive(rows, ["session_key", "question_id"], a, b);
  }

  // -------------------------------------------------------------------------
  // Running the same upsert twice
  // -------------------------------------------------------------------------

  // All columns that the rows of one key supply, the last value winning
  function Later(cols: seq<string>, payload: seq<Row>, key: Key): Row
  {
    if payload == [] then map[] else
    var before, row := Later(cols, payload[..|payload| - 1], key), payload[|payload| - 1];
    if KeyOf(row, cols) == key then before + row else before
  }

  // Overlaying twice with the same rows changes nothing more
  lemma {:induction false} OverlayKeepsLater(start: Row, cols: seq<string>, payload: seq<Row>, key: Key)
    ensures Overlay(Some(start), cols, payload, key) == Some(start + Later(cols, payload, key))
  {
    if payload != [] {
      OverlayKeepsLater(start, cols, payload[..|payload| - 1], key);
      var later, row := Later(cols, payload[..|payload| - 1], key), payload[|payload| - 1];
      assert (start + later) + row == start + (later + row);
    } else {
      assert start + map[] == start;
    }
  }

  lemma {:induction false} NoneLater(cols: seq<string>, payload: seq<Row>, key: Key)
    requires forall i :: 0 <= i < |payload| ==> KeyOf(payload[i], cols) != key
    ensures Later(cols, payload, key) == map[]
  {
    if payload != [] {
      NoneLater(cols, payload[..|payload| - 1], key);
    }
  }

  lemma {:induction false} OverlayIsLater(start: Option<Row>, cols: seq<string>, payload: seq<Row>, key: Key)
    ensures Overlay(start, cols, payload, key) ==
      if start.Some? then Some(start.value + Later(cols, payload, key))
      else if exists i :: 0 <= i < |payload| && KeyOf(payload[i], cols) == key then Some(Later(cols, payload, key))
      else None
  {
    if start.Some? {
      OverlayKeepsLater(start.value, cols, payload, key);
    } else if payload != [] {
      var front := payload[..|payload| - 1];
      OverlayIsLater(start, cols, front, key);
      assert forall i :: 0 <= i < |front| ==> front[i] == payload[i];
      if forall i :: 0 <= i < |front| ==> KeyOf(front[i], cols) != key {
        NoneLater(cols, front, key);
        assert map[] + payload[|payload| - 1] == payload[|payload| - 1];
      }
    }
  }

  lemma PlusAssociates(a: Row, b: Row, c: Row)
    ensures (a + b) + c == a + (b + c)
  {
  }

  lemma InPlace(rows: seq<Row>, cols: seq<string>, now: seq<Row>, row: Row)
    requires UniqueKeys(rows, cols) && |now| == |rows|
    requires forall j :: 0 <= j < |rows| ==> KeyOf(now[j], cols) == KeyOf(rows[j], cols)
    requires NullFree(KeyOf(row, cols)) && At(rows, cols, KeyOf(row, cols)) < |rows|
    ensures
      var after := Merge(now, cols, row);
      && |after| == |rows| && UniqueKeys(after, cols)
      && forall j :: 0 <= j < |rows| ==>
           KeyOf(after[j], cols) == KeyOf(rows[j], cols)
           && after[j] == if KeyOf(rows[j], cols) == KeyOf(row, cols) then now[j] + row else now[j]
  {
    hide KeyOf, NullFree;
    var key := KeyOf(row, cols);
    var i := At(now, cols, key);
    assert i == At(rows, cols, key);
    KeyKept(now[i], row, cols);
    AtUnique(rows, cols, key);
  }

  // A pass that finds every key present rewrites rows in place
  lemma {:induction false} SecondPass(rows: seq<Row>, cols: seq<string>, payload: seq<Row>)
    requires UniqueKeys(rows, cols)
    requires forall i :: 0 <= i < |payload| ==>
      NullFree(KeyOf(payload[i], cols)) && At(rows, cols, KeyOf(payload[i], cols)) < |rows|
    ensures
      var after := MergeAll(rows, cols, payload);
      && |after| == |rows|
      && UniqueKeys(after, cols)
      && forall j :: 0 <= j < |rows| ==>
           KeyOf(after[j], cols) == KeyOf(rows[j], cols)
           && after[j] == rows[j] + Later(cols, payload, KeyOf(rows[j], cols))
  {
    hide KeyOf, NullFree;
    if payload == [] {
      assert forall j :: 0 <= j < |rows| ==> rows[j] + map[] == rows[j];
    } else {
      var front, row := payload[..|payload| - 1], payload[|payload| - 1];
      SecondPass(rows, cols, front);
      InPlace(rows, cols, MergeAll(rows, cols, front), row);
      hide Merge, At, UniqueKeys;
      forall j | 0 <= j < |rows|
        ensures MergeAll(rows, cols, payload)[j] == rows[j] + Later(cols, payload, KeyOf(rows[j], cols))
      {
        var later := Later(cols, front, KeyOf(rows[j], cols));
        PlusAssociates(rows[j], later, row);
      }
    }
  }

  // Every row of the merged table already carries what its key's payload rows supply
  lemma AlreadyMerged(rows: seq<Row>, cols: seq<string>, payload: seq<Row>, j: nat)
    requires UniqueKeys(rows, cols)
    requires forall i :: 0 <= i < |payload| ==> NullFree(KeyOf(payload[i], cols))
    requires j < |MergeAll(rows, cols, payload)|
    ensures
      var row := MergeAll(rows, cols, payload)[j];
      row + Later(cols, payload, KeyOf(row, cols)) == row
  {
    hide KeyOf, NullFree, Merge, MergeAll, Overlay, Later;
    var once := MergeAll(rows, cols, payload);
    var key := KeyOf(once[j], cols);
    if NullFree(key) {
      UpsertRefinesMerge(rows, cols, payload, key);
      AtUnique(once, cols, key);
      OverlayIsLater(Lookup(rows, cols, key), cols, payload, key);
      var later := Later(cols, payload, key);
      assert forall m: Row :: (m + later) + later == m + later;
    } else {
      NoneLater(cols, payload, key);
      assert once[j] + map[] == once[j];
    }
  }

  lemma {:induction false} NullKeysAdd(rows: seq<Row>, cols: seq<string>, payload: seq<Row>)
    ensures |MergeAll(rows, cols, payload)| >= |rows|
    ensures (exists i :: 0 <= i < |payload| && !NullFree(KeyOf(payload[i], cols))) ==>
      |MergeAll(rows, cols, payload)| > |rows|
  {
    hide KeyOf, NullFree;
    if payload != [] {
      var front := payload[..|payload| - 1];
      NullKeysAdd(rows, cols, front);
      if i :| 0 <= i < |payload| && !NullFree(KeyOf(payload[i], cols)) {
        assert i < |front| ==> front[i] == payload[i];
      }
    }
  }

  lemma {:induction false} KeysKept(rows: seq<Row>, cols: seq<string>, payload: seq<Row>)
    requires UniqueKeys(rows, cols)
    ensures UniqueKeys(MergeAll(rows, cols, payload), cols)
  {
    UpsertRefinesMerge(rows, cols, payload, []);
  }

  lemma KeyPresent(rows: seq<Row>, cols: seq<string>, payload: seq<Row>, i: nat)
    requires UniqueKeys(rows, cols) && i < |payload| && NullFree(KeyOf(payload[i], cols))
    ensures
      var once := MergeAll(rows, cols, payload);
      At(once, cols, KeyOf(payload[i], cols)) < |once|
  {
    hide KeyOf, NullFree, Merge, MergeAll, Overlay, Later, UniqueKeys;
    var key := KeyOf(payload[i], cols);
    UpsertRefinesMerge(rows, cols, payload, key);
    OverlayIsLater(Lookup(rows, cols, key), cols, payload, key);
  }

  /** Running an upsert a second time changes nothing exactly when every payload row carries a
      non-null value for every conflict column. */
  lemma {:induction false} UpsertTwice(rows: seq<Row>, cols: seq<string>, payload: seq<Row>)
    requires UniqueKeys(rows, cols)
    ensures
      var once := MergeAll(rows, cols, payload);
      MergeAll(once, cols, payload) == once
      <==> forall i :: 0 <= i < |payload| ==> NullFree(KeyOf(payload[i], cols))
  {
    var once := MergeAll(rows, cols, payload);
    hide KeyOf, NullFree, Merge, MergeAll, Overlay, Later, UniqueKeys;
    if forall i :: 0 <= i < |payload| ==> NullFree(KeyOf(payload[i], cols)) {
      KeysKept(rows, cols, payload);
      forall i | 0 <= i < |payload| ensures At(once, cols, KeyOf(payload[i], cols)) < |once| {
        KeyPresent(rows, cols, payload, i);
      }
      SecondPass(once, cols, payload);
      forall j | 0 <= j < |once| ensures MergeAll(once, cols, payload)[j] == once[j] {
        AlreadyMerged(rows, cols, payload, j);
      }
    } else {
      NullKeysAdd(once, cols, payload);
    }
  }
}
