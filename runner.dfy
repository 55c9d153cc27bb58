/**
 * The statement-by-statement bodies of `execute`, shared by both revisions:
 * each method walks a command the way the Rust code does (peel a word,
 * test a keyword, look the table up, call the table, check its answer) and
 * is proved to produce the `Effect` its specification function in
 * `Commands` describes. The engines thread their `tables` field through
 * these methods.
 */
module Runner {
  import opened Rust
  import opened Values
  import opened Tables
  import opened Util
  import opened RowSets
  import opened Commands

  /** `delete_table`: `tables.remove(search_for_table(name)?)`. */
  method RemoveTable(ts: seq<Table>, name: string) returns (ts': seq<Table>, r: Result<Success>)
    ensures (ts', r) == DeleteTableSpec(ts, name)
  {
    var index := SearchForTable(ts, name);
    if index.Err? {
      return ts, Err(index.error);
    }
    ts' := ts[..index.value] + ts[index.value + 1..];
    return ts', Ok(SuccessMessage(true));
  }

  /** `delete_column`: the table's deletion, and a check of its answer. */
  method RemoveColumn(ts: seq<Table>, tablename: string, columnname: string, api: TableApi)
    returns (ts': seq<Table>, r: Result<Success>)
    ensures (ts', r) == DeleteColumnSpec(ts, tablename, columnname, api)
  {
    var index := SearchForTable(ts, tablename);
    if index.Err? {
      return ts, Err(index.error);
    }
    var i := index.value;
    var (t, answ) := api.deleteColumn(ts[i], columnname);
    ts' := ts[i := t];
    if answ.Err? {
      return ts', Err(answ.error);
    }
    if answ.value == SuccessMessage(true) {
      return ts', Ok(SuccessMessage(true));
    } else {
      return ts', Err(DeletionError);
    }
  }

  method RunCommand(rev: Revision, ts: seq<Table>, query: string, sep: string, env: Env) returns (e: Effect)
    requires |sep| > 0
    ensures e == Command(rev, ts, query, sep, env)
  {
    var l1 := StripLeadingWord(query);
    match l1.0 {
      case "new" => e := RunNew(rev, ts, l1.1, sep, env);
      case "delete" => e := RunDelete(ts, l1.1, sep, env);
      case "update" => e := RunUpdate(ts, l1.1, sep, env);
      case "select" => e := RunSelect(rev, ts, query, l1.1, sep, env);
      case "get" => e := RunGet(ts, l1.1, env);
      case _ => e := Reply(ts, Err(InvalidSyntax));
    }
  }

  // ----- new -----

  method RunNew(rev: Revision, ts: seq<Table>, rest: string, sep: string, env: Env) returns (e: Effect)
    requires |sep| > 0
    ensures e == NewCommand(rev, ts, rest, sep, env)
  {
    var l2 := StripLeadingWord(rest);
    var l3 := StripLeadingWord(l2.1);
    var tablename := l3.0;
    match l2.0 {
      case "table" => e := RunNewTable(rev, ts, tablename, l3.1, env);
      case "column" => e := RunNewColumns(ts, tablename, l3.1, env);
      case "data" => e := RunNewRows(ts, tablename, l3.1, sep, env);
      case _ => e := Reply(ts, Err(InvalidSyntax));
    }
  }

  method RunNewTable(rev: Revision, ts: seq<Table>, tablename: string, rest: string, env: Env) returns (e: Effect)
    ensures e == NewTable(rev, ts, tablename, rest, env)
  {
    var l4 := StripLeadingWord(rest);
    if !Contains(l4.0, "with") {
      return Reply(ts, Err(InvalidSyntax));
    }
    if rev == Current {
      var found := SearchForTable(ts, tablename);
      if found.Ok? {
        // the table exists already: nothing is done and nothing is logged
        return Reply(ts, Ok(SuccessMessage(true)));
      }
    }
    var columns := DecodeColumnMaker(l4.1);
    if columns.Err? {
      return Abort(ts, UnwrapErr(columns.error));
    }
    var table := env.api.build(tablename, columns.value);
    return Logged(ts + [table], Ok(SuccessMessage(true)));
  }

  method RunNewColumns(ts: seq<Table>, tablename: string, rest: string, env: Env) returns (e: Effect)
    ensures e == NewColumns(ts, tablename, rest, env)
  {
    var l4 := StripLeadingWord(rest);
    if !Contains(l4.0, "with") {
      return Reply(ts, Err(InvalidSyntax));
    }
    var columns := DecodeColumnMaker(l4.1);
    if columns.Err? {
      return Abort(ts, UnwrapErr(columns.error));
    }
    var index := SearchForTable(ts, tablename);
    if index.Err? {
      return Reply(ts, Err(index.error));
    }
    var i := index.value;
    var (t, answ) := env.api.newColumns(ts[i], columns.value);
    if answ == SuccessMessage(true) {
      return Logged(ts[i := t], Ok(answ));
    } else {
      return Logged(ts[i := t], Err(InvalidSyntax));
    }
  }

  method RunNewRows(ts: seq<Table>, tablename: string, fields: string, sep: string, env: Env) returns (e: Effect)
    requires |sep| > 0
    ensures e == NewRows(ts, tablename, fields, sep, env)
  {
    var decoded := DecodeListColumnData(fields, sep, env.data);
    var index := SearchForTable(ts, tablename);
    if index.Err? {
      return Reply(ts, Err(index.error));
    }
    var i := index.value;
    var (t, answ) := env.api.newData(ts[i], decoded);
    if answ.Err? {
      return Reply(ts[i := t], Err(answ.error));
    }
    if answ.value == SuccessMessage(true) {
      return Logged(ts[i := t], Ok(answ.value));
    } else {
      return Logged(ts[i := t], Err(InvalidSyntax));
    }
  }

  // ----- delete -----

  method RunDelete(ts: seq<Table>, rest: string, sep: string, env: Env) returns (e: Effect)
    requires |sep| > 0
    ensures e == DeleteCommand(ts, rest, sep, env)
  {
    var l2 := StripLeadingWord(rest);
    match l2.0 {
      case "table" => e := RunDropTable(ts, l2.1);
      case "column" => e := RunDropColumn(ts, l2.1, env);
      case "data" => e := RunDropRows(ts, l2.1, sep, env);
      case _ => e := Reply(ts, Err(InvalidSyntax));
    }
  }

  method RunDropTable(ts: seq<Table>, rest: string) returns (e: Effect)
    ensures e == DropTable(ts, rest)
  {
    var l3 := StripLeadingWord(rest);
    if !Contains(l3.0, "with") {
      return Reply(ts, Err(InvalidSyntax));
    }
    var ts', answ := RemoveTable(ts, l3.1);
    if answ.Ok? {
      return Logged(ts', answ);
    } else {
      return Reply(ts', Err(InvalidSyntax));
    }
  }

  method RunDropColumn(ts: seq<Table>, rest: string, env: Env) returns (e: Effect)
    ensures e == DropColumn(ts, rest, env)
  {
    var l3 := StripLeadingWord(rest);
    if !Contains(l3.0, "with") {
      return Reply(ts, Err(InvalidSyntax));
    }
    var l4 := StripLeadingWord(l3.1);
    var columnname := l4.0;
    var l5 := StripLeadingWord(l4.1);
    if !Contains(l5.0, "in") {
      return Reply(ts, Err(InvalidSyntax));
    }
    var ts', answ := RemoveColumn(ts, l5.1, columnname, env.api);
    if answ.Ok? {
      return Logged(ts', answ);
    } else {
      return Reply(ts', Err(InvalidSyntax));
    }
  }

  method RunDropRows(ts: seq<Table>, rest: string, sep: string, env: Env) returns (e: Effect)
    requires |sep| > 0
    ensures e == DropRows(ts, rest, sep, env)
  {
    var l3 := StripLeadingWord(rest);
    if !Contains(l3.0, "in") {
      return Reply(ts, Err(InvalidSyntax));
    }
    var l4 := StripLeadingWord(l3.1);
    var index := SearchForTable(ts, l4.0);
    if index.Err? {
      return Reply(ts, Err(index.error));
    }
    var i := index.value;
    var l5 := StripLeadingWord(l4.1);
    if !Contains(l5.0, "where") {
      return Reply(ts, Err(InvalidSyntax));
    }
    var found := SearchConditionals(ts[i], l5.1, sep, env);
    if found.Err? {
      return Reply(ts, Err(found.error));
    }
    var (t, answ) := env.api.deleteData(ts[i], found.value);
    if answ.Ok? {
      return Logged(ts[i := t], answ);
    } else {
      return Reply(ts[i := t], Err(InvalidSyntax));
    }
  }

  // ----- update -----

  method RunUpdate(ts: seq<Table>, rest: string, sep: string, env: Env) returns (e: Effect)
    requires |sep| > 0
    ensures e == UpdateCommand(ts, rest, sep, env)
  {
    var l2 := StripLeadingWord(rest);
    var tablename := l2.0;
    var l3 := StripLeadingWord(l2.1);
    if !Contains(l3.0, "where") {
      return Reply(ts, Err(ShouldBe(l3.0, "where")));
    }
    var l4 := StripConditionList(l3.1);
    var conditions := l4.0;
    var l5 := StripLeadingWord(l4.1);
    if !Contains(l5.0, "with") {
      return Reply(ts, Err(ShouldBe(l3.0, "where")));
    }
    e := RunUpdateRows(ts, tablename, conditions, l5.1, sep, env);
  }

  method RunUpdateRows(ts: seq<Table>, tablename: string, conditions: string, fields: string, sep: string, env: Env)
    returns (e: Effect)
    requires |sep| > 0
    ensures e == UpdateRows(ts, tablename, conditions, fields, sep, env)
  {
    var decoded := DecodeListColumnData(fields, sep, env.data);
    var index := SearchForTable(ts, tablename);
    if index.Err? {
      return Reply(ts, Err(index.error));
    }
    var i := index.value;
    var search := SearchConditionals(ts[i], conditions, sep, env);
    if search.Err? {
      return Reply(ts, Err(search.error));
    }
    var (t, answ) := env.api.updateData(ts[i], decoded, search.value);
    if answ.Err? {
      return Reply(ts[i := t], Err(answ.error));
    }
    if answ.value == SuccessMessage(true) {
      return Logged(ts[i := t], Ok(answ.value));
    } else {
      return Logged(ts[i := t], Err(InvalidSyntax));
    }
  }

  // ----- select -----

  /** `binding` is the whole command, which lib.rs inspects for the all-rows cases. */
  method RunSelect(rev: Revision, ts: seq<Table>, binding: string, rest: string, sep: string, env: Env)
    returns (e: Effect)
    requires |sep| > 0
    ensures e == SelectCommand(rev, ts, binding, rest, sep, env)
  {
    var stripped := StripColumnList(rest);
    if stripped.Err? {
      return Reply(ts, Err(stripped.error));
    }
    var l2 := stripped.value;
    var l3 := StripLeadingWord(l2.1);
    if !Contains(l3.0, "from") {
      return Reply(ts, Err(ShouldBe(l3.1, "from")));
    }
    var l4 := StripLeadingWord(l3.1);
    var index := SearchForTable(ts, l4.0);
    if index.Err? {
      return Reply(ts, Err(index.error));
    }
    e := RunSelectRows(rev, ts, ts[index.value], binding, l2.0, l4.1, sep, env);
  }

  method RunSelectRows(rev: Revision, ts: seq<Table>, t: Table, binding: string, columnList: string, rest: string,
                       sep: string, env: Env) returns (e: Effect)
    requires |sep| > 0
    ensures e == SelectRows(rev, ts, t, binding, columnList, rest, sep, env)
  {
    var columns := DecodeColumnList(columnList, t);
    var l5 := StripLeadingWord(rest);
    if rev == Current && Contains(columnList, "*") && |SplitWhitespace(binding)| == 4 {
      var search := env.api.selectAllRows(t);
      return Logged(ts, Ok(env.api.selectData(t, columns, search)));
    } else if rev == Current && !Contains(binding, "where") {
      var search := env.api.selectAllRows(t);
      return Logged(ts, Ok(env.api.selectData(t, columns, search)));
    } else if Contains(l5.0, "where") {
      var search := SearchConditionals(t, l5.1, sep, env);
      if search.Err? {
        return Reply(ts, Err(search.error));
      }
      return Logged(ts, Ok(env.api.selectData(t, columns, search.value)));
    } else {
      return Reply(ts, Err(ShouldBe(l5.1, "where")));
    }
  }


  // ----- get -----

  method RunGet(ts: seq<Table>, rest: string, env: Env) returns (e: Effect)
    ensures e == GetCommand(ts, rest, env)
  {
    var l2 := StripLeadingWord(rest);
    var l3 := StripLeadingWord(l2.1);
    match l2.0 {
      case "min" => e := RunExtreme(ts, l3, true, env);
      case "max" => e := RunExtreme(ts, l3, false, env);
      case "len" => e := RunLength(ts, l3, env);
      case _ => e := Reply(ts, Err(ShouldBe(l2.0, "one of [min/max/len]")));
    }
  }

  method RunLength(ts: seq<Table>, l3: (string, string), env: Env) returns (e: Effect)
    ensures e == Length(ts, l3, env)
  {
    if !Contains(l3.0, "of") {
      return Reply(ts, Err(ShouldBe(l3.0, "of")));
    }
    var l4 := StripLeadingWord(l3.1);
    var index := SearchForTable(ts, l4.0);
    if index.Err? {
      return Reply(ts, Err(index.error));
    }
    var answ := env.api.len(ts[index.value]);
    var encoded := [env.data.fromString(DecimalString(answ))];
    return Logged(ts, Ok(Result(encoded)));
  }

  method RunExtreme(ts: seq<Table>, l3: (string, string), isMin: bool, env: Env) returns (e: Effect)
    ensures e == Extreme(ts, l3, isMin, env)
  {
    if !Contains(l3.0, "in") {
      return Reply(ts, Err(ShouldBe(l3.0, "in")));
    }
    var l4 := StripLeadingWord(l3.1);
    var columnname := l4.0;
    var l5 := StripLeadingWord(l4.1);
    if !Contains(l5.0, "from") {
      return Reply(ts, Err(ShouldBe(l5.0, "from")));
    }
    var index := SearchForTable(ts, l5.1);
    if index.Err? {
      return Reply(ts, Err(index.error));
    }
    var t := ts[index.value];
    var column := env.api.searchForColumn(t, columnname);
    if column.Err? {
      return Reply(ts, Err(column.error));
    }
    var c := column.value;
    if c >= |t.columns| {
      return Abort(ts, IndexOutOfBounds(c, |t.columns|));
    }
    var answ := if isMin then env.api.min(t.columns[c]) else env.api.max(t.columns[c]);
    return Logged(ts, Ok(answ));
  }
}
