/**
 * What one NQL command does to the tables, as a function of the tables
 * before it. Both revisions of `Neith::execute` (lib.rs and the older
 * main.rs) walk the same word-by-word dispatch; `Revision` selects the few
 * places where they differ. The history row that lib.rs writes after a
 * command is not part of this: `Effect.logged` only says whether the
 * command reached the point where lib.rs writes it.
 */
module Commands {
  import opened Rust
  import opened Values
  import opened Tables
  import opened Util
  import opened RowSets

  /** lib.rs (`Current`) or the older main.rs (`Legacy`). */
  datatype Revision = Current | Legacy

  /**
   * The tables after a command, how it ended, and whether lib.rs would
   * write a history row before returning that outcome.
   */
  datatype Effect = Effect(tables: seq<Table>, out: Outcome, logged: bool)

  /** Returns without reaching the history write. */
  function Reply(ts: seq<Table>, r: Result<Success>): Effect
  {
    Effect(ts, Answer(r), false)
  }

  /** Returns after the history write. */
  function Logged(ts: seq<Table>, r: Result<Success>): Effect
  {
    Effect(ts, Answer(r), true)
  }

  /** Aborts with a panic. */
  function Abort(ts: seq<Table>, p: Panic): Effect
  {
    Effect(ts, Panicked(p), false)
  }

  /** `after` is `before` with at most the table at one position replaced. */
  predicate AtMostOneChanged(before: seq<Table>, after: seq<Table>)
  {
    |after| == |before| && (after == before || exists i :: 0 <= i < |before| && after == before[i := after[i]])
  }

  lemma ReplaceOne(ts: seq<Table>, i: nat, t: Table)
    requires i < |ts|
    ensures AtMostOneChanged(ts, ts[i := t])
  {
    assert ts[i := t] == ts[i := ts[i := t][i]];
  }

  // ----- table lookup -----

  /** `search_for_table`: the index of the first table with that name. */
  function TableIndex(ts: seq<Table>, name: string): (r: Result<nat>)
    ensures r.Ok? <==> HasTable(ts, name)
    ensures r.Ok? ==> r.value < |ts| && ts[r.value].name == name
    ensures r.Ok? ==> forall j :: 0 <= j < r.value ==> ts[j].name != name
    ensures r.Err? ==> r.error == TableNotFound(name)
  {
    match FirstIndex(ts, name)
    case None => Err(TableNotFound(name))
    case Some(i) => Ok(i)
  }

  /** `exists_table`: a loop that stops at the first table with that name. */
  method ExistsTable(ts: seq<Table>, name: string) returns (b: bool)
    ensures b <==> HasTable(ts, name)
  {
    for i := 0 to |ts|
      invariant forall j :: 0 <= j < i ==> ts[j].name != name
    {
      if ts[i].name == name {
        return true;
      }
    }
    return false;
  }

  /** `search_for_table`: a loop that counts the tables it passes. */
  method SearchForTable(ts: seq<Table>, name: string) returns (r: Result<nat>)
    ensures r == TableIndex(ts, name)
  {
    var counter: nat := 0;
    while counter < |ts|
      invariant counter <= |ts|
      invariant forall j :: 0 <= j < counter ==> ts[j].name != name
    {
      if ts[counter].name == name {
        return Ok(counter);
      }
      counter := counter + 1;
    }
    return Err(TableNotFound(name));
  }

  /** `delete_table`: removes the first table with that name. */
  function DeleteTableSpec(ts: seq<Table>, name: string): (r: (seq<Table>, Result<Success>))
    ensures !HasTable(ts, name) ==> r == (ts, Err(TableNotFound(name)))
    ensures HasTable(ts, name) ==>
      var i := FirstIndex(ts, name).value;
      r.1 == Ok(SuccessMessage(true)) && r.0 == ts[..i] + ts[i + 1..]
  {
    match TableIndex(ts, name)
    case Err(e) => (ts, Err(e))
    case Ok(i) => (ts[..i] + ts[i + 1..], Ok(SuccessMessage(true)))
  }

  /**
   * Deleting a table keeps every other table in order: only the first one
   * with that name goes, and later tables with the same name stay.
   */
  lemma DeleteTableKeepsOthers(ts: seq<Table>, name: string)
    requires HasTable(ts, name)
    ensures var r := DeleteTableSpec(ts, name).0;
      var i := FirstIndex(ts, name).value;
      && |r| == |ts| - 1
      && (forall j :: 0 <= j < i ==> r[j] == ts[j] && r[j].name != name)
      && (forall j :: i <= j < |r| ==> r[j] == ts[j + 1])
      && multiset(r) + multiset{ts[i]} == multiset(ts)
  {
    RemoveAt(ts, FirstIndex(ts, name).value);
  }

  /** Removing the element at `i` keeps the others, in order. */
  lemma RemoveAt<T>(s: seq<T>, i: nat)
    requires i < |s|
    ensures var r := s[..i] + s[i + 1..];
      && |r| == |s| - 1
      && (forall j :: 0 <= j < i ==> r[j] == s[j])
      && (forall j :: i <= j < |r| ==> r[j] == s[j + 1])
      && multiset(r) + multiset{s[i]} == multiset(s)
  {
    assert s == s[..i] + [s[i]] + s[i + 1..];
  }

  /** `delete_column`: the table's own deletion, then a check of its answer. */
  function DeleteColumnSpec(ts: seq<Table>, tablename: string, columnname: string, api: TableApi)
    : (r: (seq<Table>, Result<Success>))
    ensures !HasTable(ts, tablename) ==> r == (ts, Err(TableNotFound(tablename)))
    ensures r.1.Ok? ==> r.1.value == SuccessMessage(true)
    ensures AtMostOneChanged(ts, r.0)
  {
    match TableIndex(ts, tablename)
    case Err(e) => (ts, Err(e))
    case Ok(i) =>
      var (t, answ) := api.deleteColumn(ts[i], columnname);
      var ts' := ts[i := t];
      ReplaceOne(ts, i, t);
      match answ
      case Err(e) => (ts', Err(e))
      case Ok(s) => if s == SuccessMessage(true) then (ts', Ok(s)) else (ts', Err(DeletionError))
  }

  /** A table answering other than `SuccessMessage(true)` is a deletion error. */
  lemma DeleteColumnChecksAnswer(ts: seq<Table>, tablename: string, columnname: string, api: TableApi)
    requires HasTable(ts, tablename)
    ensures var i := FirstIndex(ts, tablename).value;
      var (t, answ) := api.deleteColumn(ts[i], columnname);
      var r := DeleteColumnSpec(ts, tablename, columnname, api);
      && r.0 == ts[i := t]
      && (answ.Err? ==> r.1 == answ)
      && (answ.Ok? && answ.value != SuccessMessage(true) ==> r.1 == Err(DeletionError))
      && (answ == Ok(SuccessMessage(true)) ==> r.1 == answ)
  {
  }

  // ----- search_conditionals -----

  /** The rows of the table whose column `f.0` holds `f.1`. */
  function Search(t: Table, f: Field, env: Env): Result<seq<nat>>
  {
    env.api.searchColumnData(t, f.0, f.1)
  }

  /** The condition list decoded and encoded into `(name, data)` entries. */
  function Encoded(text: string, sep: string, env: Env): Result<seq<Field>>
    requires |sep| > 0
  {
    match DecodedConditions(text, sep)
    case Err(e) => Err(e)
    case Ok(decoded) => EncodedConditions(decoded, env.data)
  }

  /**
   * The loop of `search_conditionals` over the entries after the first
   * three: an entry whose data is `Data::default()` becomes the operator
   * (`read_condition`); any other entry is searched and joined to the
   * rows so far with that operator.
   */
  function Fold(t: Table, rest: seq<Field>, read: string, acc: seq<nat>, env: Env): (r: Result<seq<nat>>)
    ensures (forall k :: 0 <= k < |rest| ==> rest[k].1 == env.data.defaultData) ==> r == Ok(acc)
    decreases |rest|
  {
    if rest == [] then Ok(acc)
    else if rest[0].1 == env.data.defaultData then Fold(t, rest[1..], rest[0].0, acc, env)
    else match Search(t, rest[0], env)
      case Err(e) => Err(e)
      case Ok(rows) =>
        match CheckSpec(acc, read, rows)
        case Err(e) => Err(e)
        case Ok(joined) => Fold(t, rest[1..], read, joined, env)
  }

  /** `search_conditionals` on a table: the rows the condition list selects. */
  function Conditions(t: Table, text: string, sep: string, env: Env): Result<seq<nat>>
    requires |sep| > 0
  {
    match Encoded(text, sep, env)
    case Err(e) => Err(e)
    case Ok(enc) =>
      if |enc| == 0 then Err(InvalidSyntax)
      else if |enc| == 1 then Search(t, enc[0], env)
      else if |enc| == 2 then Ok([])
      else
        match Search(t, enc[0], env)
        case Err(e) => Err(e)
        case Ok(search) =>
          match Search(t, enc[2], env)
          case Err(e) => Err(e)
          case Ok(other) =>
            match CheckSpec(search, enc[1].0, other)
            case Err(e) => Err(e)
            case Ok(first) => Fold(t, enc[3..], "", first, env)
  }

  /** The result by the number of encoded entries: none, one, two and three. */
  lemma ConditionsByLength(t: Table, text: string, sep: string, env: Env, enc: seq<Field>)
    requires |sep| > 0 && Encoded(text, sep, env) == Ok(enc)
    ensures |enc| == 0 ==> Conditions(t, text, sep, env) == Err(InvalidSyntax)
    ensures |enc| == 1 ==> Conditions(t, text, sep, env) == Search(t, enc[0], env)
    ensures |enc| == 2 ==> Conditions(t, text, sep, env) == Ok([])
    ensures |enc| == 3 && Search(t, enc[0], env).Ok? && Search(t, enc[2], env).Ok? ==>
      Conditions(t, text, sep, env)
        == CheckSpec(Search(t, enc[0], env).value, enc[1].0, Search(t, enc[2], env).value)
  {
    if |enc| == 3 && Search(t, enc[0], env).Ok? && Search(t, enc[2], env).Ok? {
      var r := CheckSpec(Search(t, enc[0], env).value, enc[1].0, Search(t, enc[2], env).value);
      if r.Ok? {
        assert enc[3..] == [];
      }
    }
  }

  /**
   * Five entries `a op1 b op2 c` are joined strictly from the left,
   * `(a op1 b) op2 c`, whatever the operators: there is no precedence.
   */
  lemma FoldLeftToRight(t: Table, text: string, sep: string, env: Env, enc: seq<Field>)
    requires |sep| > 0 && Encoded(text, sep, env) == Ok(enc) && |enc| == 5
    requires enc[3].1 == env.data.defaultData && enc[4].1 != env.data.defaultData
    requires Search(t, enc[0], env).Ok? && Search(t, enc[2], env).Ok? && Search(t, enc[4], env).Ok?
    requires CheckSpec(Search(t, enc[0], env).value, enc[1].0, Search(t, enc[2], env).value).Ok?
    ensures Conditions(t, text, sep, env)
         == CheckSpec(CheckSpec(Search(t, enc[0], env).value, enc[1].0, Search(t, enc[2], env).value).value,
                      enc[3].0, Search(t, enc[4], env).value)
  {
    var first := CheckSpec(Search(t, enc[0], env).value, enc[1].0, Search(t, enc[2], env).value).value;
    var rest := enc[3..];
    assert Conditions(t, text, sep, env) == Fold(t, rest, "", first, env);
    assert rest[0] == enc[3] && rest[1..][0] == enc[4] && rest[1..][1..] == [];
    var last := CheckSpec(first, enc[3].0, Search(t, enc[4], env).value);
    assert Fold(t, rest, "", first, env) == Fold(t, rest[1..], enc[3].0, first, env);
    if last.Ok? {
      assert Fold(t, rest[1..], enc[3].0, first, env) == Fold(t, rest[1..][1..], enc[3].0, last.value, env);
    }
  }

  /**
   * A term right after the first three entries, with no operator in
   * between, meets the empty `read_condition` and the whole search fails.
   */
  lemma FoldNeedsOperator(t: Table, text: string, sep: string, env: Env, enc: seq<Field>)
    requires |sep| > 0 && Encoded(text, sep, env) == Ok(enc) && |enc| >= 4
    requires enc[3].1 != env.data.defaultData
    requires Search(t, enc[0], env).Ok? && Search(t, enc[2], env).Ok? && Search(t, enc[3], env).Ok?
    requires CheckSpec(Search(t, enc[0], env).value, enc[1].0, Search(t, enc[2], env).value).Ok?
    ensures Conditions(t, text, sep, env) == Err(InvalidSyntax)
  {
    var first := CheckSpec(Search(t, enc[0], env).value, enc[1].0, Search(t, enc[2], env).value).value;
    assert Conditions(t, text, sep, env) == Fold(t, enc[3..], "", first, env);
    assert enc[3..][0] == enc[3];
    assert CheckSpec(first, "", Search(t, enc[3], env).value) == Err(InvalidSyntax);
  }

  /** An operator with no term after it is dropped. */
  lemma {:induction false} FoldTrailingOperator(t: Table, rest: seq<Field>, read: string, acc: seq<nat>, env: Env)
    requires rest != [] && rest[|rest| - 1].1 == env.data.defaultData
    ensures Fold(t, rest, read, acc, env) == Fold(t, rest[..|rest| - 1], read, acc, env)
    decreases |rest|
  {
    if |rest| > 1 {
      assert rest[1..][..|rest[1..]| - 1] == rest[..|rest| - 1][1..];
      if rest[0].1 == env.data.defaultData {
        FoldTrailingOperator(t, rest[1..], rest[0].0, acc, env);
      } else if Search(t, rest[0], env).Ok? && CheckSpec(acc, read, Search(t, rest[0], env).value).Ok? {
        FoldTrailingOperator(t, rest[1..], read, CheckSpec(acc, read, Search(t, rest[0], env).value).value, env);
      }
    }
  }

  /** `search_conditionals`: the encoded entries are consumed in a loop. */
  method SearchConditionals(t: Table, conditions: string, sep: string, env: Env) returns (r: Result<seq<nat>>)
    requires |sep| > 0
    ensures r == Conditions(t, conditions, sep, env)
  {
    var decoded := DecodeListConditions(conditions, sep);
    if decoded.Err? {
      return Err(decoded.error);
    }
    var encoded := EncodeListConditions(decoded.value, env.data);
    if encoded.Err? {
      return Err(encoded.error);
    }
    var enc := encoded.value;
    if |enc| == 0 {
      return Err(InvalidSyntax);
    } else if |enc| == 1 {
      return env.api.searchColumnData(t, enc[0].0, enc[0].1);
    } else if |enc| == 2 {
      return Ok([]);
    }
    var search := env.api.searchColumnData(t, enc[0].0, enc[0].1);
    if search.Err? {
      return Err(search.error);
    }
    var other := env.api.searchColumnData(t, enc[2].0, enc[2].1);
    if other.Err? {
      return Err(other.error);
    }
    var checked := ConditionCheck(search.value, enc[1].0, other.value);
    if checked.Err? {
      return Err(checked.error);
    }
    var tempHitFiles := checked.value;
    var readCondition := "";
    for i := 3 to |enc|
      invariant Fold(t, enc[i..], readCondition, tempHitFiles, env) == Conditions(t, conditions, sep, env)
    {
      var entry := enc[i];
      assert enc[i..][1..] == enc[i + 1..];
      if entry.1 == env.data.defaultData {
        readCondition := entry.0;
      } else {
        var diffSearch := env.api.searchColumnData(t, entry.0, entry.1);
        if diffSearch.Err? {
          return Err(diffSearch.error);
        }
        var next := ConditionCheck(tempHitFiles, readCondition, diffSearch.value);
        if next.Err? {
          return Err(next.error);
        }
        tempHitFiles := next.value;
      }
    }
    return Ok(tempHitFiles);
  }

  // ----- the verbs of execute -----

  /** `new table|column|data ...`, after the word `new`. */
  function NewCommand(rev: Revision, ts: seq<Table>, rest: string, sep: string, env: Env): (r: Effect)
    requires |sep| > 0
    ensures r.out.Panicked? ==> r.tables == ts
    ensures StripLeadingWord(rest).0 != "table" ==> AtMostOneChanged(ts, r.tables)
  {
    var l2 := StripLeadingWord(rest);
    var l3 := StripLeadingWord(l2.1);
    match l2.0
    case "table" => NewTable(rev, ts, l3.0, l3.1, env)
    case "column" => NewColumns(ts, l3.0, l3.1, env)
    case "data" => NewRows(ts, l3.0, l3.1, sep, env)
    case _ => Reply(ts, Err(InvalidSyntax))
  }

  /** `new table <name> with (...)`; `rest` follows the name. */
  function NewTable(rev: Revision, ts: seq<Table>, name: string, rest: string, env: Env): (r: Effect)
    ensures r.tables == ts || (r.logged && |r.tables| == |ts| + 1 && r.tables[..|ts|] == ts)
    ensures r.logged ==> r.out == Answer(Ok(SuccessMessage(true)))
    ensures rev == Current && HasTable(ts, name) ==> r.tables == ts && !r.logged
  {
    var l4 := StripLeadingWord(rest);
    if !Contains(l4.0, "with") then Reply(ts, Err(InvalidSyntax))
    else if rev == Current && TableIndex(ts, name).Ok? then Reply(ts, Ok(SuccessMessage(true)))
    else
      match ColumnSpecs(l4.1)
      case Err(e) => Abort(ts, UnwrapErr(e))
      case Ok(columns) => Logged(ts + [env.api.build(name, columns)], Ok(SuccessMessage(true)))
  }

  /** `new column <table> with (...)`; `rest` follows the table name. */
  function NewColumns(ts: seq<Table>, name: string, rest: string, env: Env): (r: Effect)
    ensures AtMostOneChanged(ts, r.tables)
    ensures r.out.Panicked? ==> r.tables == ts
    ensures r.out.Answer? && r.out.result.Ok? ==> r.out.result.value == SuccessMessage(true)
  {
    var l4 := StripLeadingWord(rest);
    if !Contains(l4.0, "with") then Reply(ts, Err(InvalidSyntax))
    else
      match ColumnSpecs(l4.1)
      case Err(e) => Abort(ts, UnwrapErr(e))
      case Ok(columns) =>
        match TableIndex(ts, name)
        case Err(e) => Reply(ts, Err(e))
        case Ok(i) =>
          var (t, answ) := env.api.newColumns(ts[i], columns);
          ReplaceOne(ts, i, t);
          Logged(ts[i := t], if answ == SuccessMessage(true) then Ok(answ) else Err(InvalidSyntax))
  }

  /** `new data <table> (...)`; `fields` is the field list. */
  function NewRows(ts: seq<Table>, name: string, fields: string, sep: string, env: Env): (r: Effect)
    requires |sep| > 0
    ensures AtMostOneChanged(ts, r.tables)
    ensures r.out.Answer? && (r.out.result.Ok? ==> r.out.result.value == SuccessMessage(true))
    ensures !HasTable(ts, name) ==> r == Reply(ts, Err(TableNotFound(name)))
  {
    var decoded := ColumnData(fields, sep, env.data);
    match TableIndex(ts, name)
    case Err(e) => Reply(ts, Err(e))
    case Ok(i) =>
      var (t, answ) := env.api.newData(ts[i], decoded);
      ReplaceOne(ts, i, t);
      match answ
      case Err(e) => Reply(ts[i := t], Err(e))
      case Ok(s) => Logged(ts[i := t], if s == SuccessMessage(true) then Ok(s) else Err(InvalidSyntax))
  }

  /** `delete table|column|data ...`, after the word `delete`. */
  function DeleteCommand(ts: seq<Table>, rest: string, sep: string, env: Env): (r: Effect)
    requires |sep| > 0
    ensures r.out.Answer?
    ensures r.logged <==> r.out.result.Ok?
  {
    var l2 := StripLeadingWord(rest);
    match l2.0
    case "table" => DropTable(ts, l2.1)
    case "column" => DropColumn(ts, l2.1, env)
    case "data" => DropRows(ts, l2.1, sep, env)
    case _ => Reply(ts, Err(InvalidSyntax))
  }

  /** `delete table with <name>`; `rest` follows `table`. */
  function DropTable(ts: seq<Table>, rest: string): (r: Effect)
    ensures r.out.Answer?
    ensures r.logged <==> r.out.result.Ok?
    ensures r.logged ==> r.out.result.value == SuccessMessage(true) && |r.tables| == |ts| - 1
    ensures !r.logged ==> r == Reply(ts, Err(InvalidSyntax))
  {
    var l3 := StripLeadingWord(rest);
    if !Contains(l3.0, "with") then Reply(ts, Err(InvalidSyntax))
    else
      var (ts', answ) := DeleteTableSpec(ts, l3.1);
      if answ.Ok? then Logged(ts', answ) else Reply(ts', Err(InvalidSyntax))
  }

  /** `delete column with <column> in <table>`; `rest` follows `column`. */
  function DropColumn(ts: seq<Table>, rest: string, env: Env): (r: Effect)
    ensures AtMostOneChanged(ts, r.tables)
    ensures r.out.Answer?
    ensures r.logged <==> r.out.result.Ok?
    ensures r.logged ==> r.out.result.value == SuccessMessage(true)
    ensures !r.logged ==> r.out.result == Err(InvalidSyntax)
  {
    var l3 := StripLeadingWord(rest);
    var l4 := StripLeadingWord(l3.1);
    var l5 := StripLeadingWord(l4.1);
    if !Contains(l3.0, "with") || !Contains(l5.0, "in") then Reply(ts, Err(InvalidSyntax))
    else
      var (ts', answ) := DeleteColumnSpec(ts, l5.1, l4.0, env.api);
      if answ.Ok? then Logged(ts', answ) else Reply(ts', Err(InvalidSyntax))
  }

  /** `delete data in <table> where [...]`; `rest` follows `data`. */
  function DropRows(ts: seq<Table>, rest: string, sep: string, env: Env): (r: Effect)
    requires |sep| > 0
    ensures AtMostOneChanged(ts, r.tables)
    ensures r.out.Answer?
    ensures r.logged <==> r.out.result.Ok?
  {
    var l3 := StripLeadingWord(rest);
    var l4 := StripLeadingWord(l3.1);
    if !Contains(l3.0, "in") then Reply(ts, Err(InvalidSyntax))
    else
      match TableIndex(ts, l4.0)
      case Err(e) => Reply(ts, Err(e))
      case Ok(i) =>
        var l5 := StripLeadingWord(l4.1);
        if !Contains(l5.0, "where") then Reply(ts, Err(InvalidSyntax))
        else
          match Conditions(ts[i], l5.1, sep, env)
          case Err(e) => Reply(ts, Err(e))
          case Ok(found) =>
            var (t, answ) := env.api.deleteData(ts[i], found);
            ReplaceOne(ts, i, t);
            if answ.Ok? then Logged(ts[i := t], answ) else Reply(ts[i := t], Err(InvalidSyntax))
  }

  /** `update <table> where [...] with (...)`, after the word `update`. */
  function UpdateCommand(ts: seq<Table>, rest: string, sep: string, env: Env): (r: Effect)
    requires |sep| > 0
    ensures AtMostOneChanged(ts, r.tables)
    ensures r.out.Answer?
  {
    var l2 := StripLeadingWord(rest);
    var l3 := StripLeadingWord(l2.1);
    var l4 := StripConditionList(l3.1);
    var l5 := StripLeadingWord(l4.1);
    if !Contains(l3.0, "where") || !Contains(l5.0, "with") then Reply(ts, Err(ShouldBe(l3.0, "where")))
    else UpdateRows(ts, l2.0, l4.0, l5.1, sep, env)
  }

  /** The rows of table `name` that `conditions` selects get the decoded `fields`. */
  function UpdateRows(ts: seq<Table>, name: string, conditions: string, fields: string, sep: string, env: Env): (r: Effect)
    requires |sep| > 0
    ensures AtMostOneChanged(ts, r.tables)
    ensures r.out.Answer? && (r.out.result.Ok? ==> r.out.result.value == SuccessMessage(true))
    ensures !r.logged ==> r.out.result.Err?
    ensures !HasTable(ts, name) ==> r == Reply(ts, Err(TableNotFound(name)))
  {
    var decoded := ColumnData(fields, sep, env.data);
    match TableIndex(ts, name)
    case Err(e) => Reply(ts, Err(e))
    case Ok(i) =>
      match Conditions(ts[i], conditions, sep, env)
      case Err(e) => Reply(ts, Err(e))
      case Ok(search) =>
        var (t, answ) := env.api.updateData(ts[i], decoded, search);
        ReplaceOne(ts, i, t);
        match answ
        case Err(e) => Reply(ts[i := t], Err(e))
        case Ok(s) => Logged(ts[i := t], if s == SuccessMessage(true) then Ok(s) else Err(InvalidSyntax))
  }

  /** `select <columns> from <table> [where [...]]`; `query` is the whole command. */
  function SelectCommand(rev: Revision, ts: seq<Table>, query: string, rest: string, sep: string, env: Env): (r: Effect)
    requires |sep| > 0
    ensures r.tables == ts && r.out.Answer?
    ensures r.logged <==> r.out.result.Ok?
  {
    match StripColumnList(rest)
    case Err(e) => Reply(ts, Err(e))
    case Ok(l2) =>
      var l3 := StripLeadingWord(l2.1);
      if !Contains(l3.0, "from") then Reply(ts, Err(ShouldBe(l3.1, "from")))
      else
        var l4 := StripLeadingWord(l3.1);
        match TableIndex(ts, l4.0)
        case Err(e) => Reply(ts, Err(e))
        case Ok(i) => SelectRows(rev, ts, ts[i], query, l2.0, l4.1, sep, env)
  }

  /** The rows a `select` reads from table `t`, once the table is found. */
  function SelectRows(rev: Revision, ts: seq<Table>, t: Table, query: string, columnList: string, rest: string,
                      sep: string, env: Env): (r: Effect)
    requires |sep| > 0
    ensures r.tables == ts && r.out.Answer?
    ensures r.logged <==> r.out.result.Ok?
  {
    var columns := SelectedColumns(columnList, t);
    var l5 := StripLeadingWord(rest);
    if rev == Current && SelectsAllRows(query, columnList) then
      Logged(ts, Ok(env.api.selectData(t, columns, env.api.selectAllRows(t))))
    else if !Contains(l5.0, "where") then Reply(ts, Err(ShouldBe(l5.1, "where")))
    else
      match Conditions(t, l5.1, sep, env)
      case Err(e) => Reply(ts, Err(e))
      case Ok(search) => Logged(ts, Ok(env.api.selectData(t, columns, search)))
  }

  /**
   * lib.rs selects every row when the column list is `*` and the command has
   * exactly four words, or when the command holds no `where` at all.
   */
  predicate SelectsAllRows(query: string, columnList: string)
  {
    (Contains(columnList, "*") && |SplitWhitespace(query)| == 4) || !Contains(query, "where")
  }

  /** `get min|max in <column> from <table>` and `get len of <table>`, after `get`. */
  function GetCommand(ts: seq<Table>, rest: string, env: Env): (r: Effect)
    ensures r.tables == ts
    ensures r.logged ==> r.out.Answer? && r.out.result.Ok?
  {
    var l2 := StripLeadingWord(rest);
    var l3 := StripLeadingWord(l2.1);
    match l2.0
    case "min" => Extreme(ts, l3, true, env)
    case "max" => Extreme(ts, l3, false, env)
    case "len" => Length(ts, l3, env)
    case _ => Reply(ts, Err(ShouldBe(l2.0, "one of [min/max/len]")))
  }

  /** `get len of <table>`: the row count, as `Data::from` of its decimal text. */
  function Length(ts: seq<Table>, l3: (string, string), env: Env): (r: Effect)
    ensures r.tables == ts && r.out.Answer?
    ensures r.logged <==> r.out.result.Ok?
    ensures r.logged ==> r.out.result.value.Result? && |r.out.result.value.rows| == 1
  {
    var l4 := StripLeadingWord(l3.1);
    if !Contains(l3.0, "of") then Reply(ts, Err(ShouldBe(l3.0, "of")))
    else
      match TableIndex(ts, l4.0)
      case Err(e) => Reply(ts, Err(e))
      case Ok(i) => Logged(ts, Ok(Result([env.data.fromString(DecimalString(env.api.len(ts[i])))])))
  }

  /** The `min` and `max` branches of `get`, which differ only in the column operation. */
  function Extreme(ts: seq<Table>, l3: (string, string), isMin: bool, env: Env): (r: Effect)
    ensures r.tables == ts
    ensures r.logged <==> r.out.Answer? && r.out.result.Ok?
    ensures r.out.Panicked? ==> HasTable(ts, StripLeadingWord(StripLeadingWord(l3.1).1).1)
  {
    var l4 := StripLeadingWord(l3.1);
    var l5 := StripLeadingWord(l4.1);
    if !Contains(l3.0, "in") then Reply(ts, Err(ShouldBe(l3.0, "in")))
    else if !Contains(l5.0, "from") then Reply(ts, Err(ShouldBe(l5.0, "from")))
    else
      match TableIndex(ts, l5.1)
      case Err(e) => Reply(ts, Err(e))
      case Ok(i) =>
        match env.api.searchForColumn(ts[i], l4.0)
        case Err(e) => Reply(ts, Err(e))
        case Ok(c) =>
          if c >= |ts[i].columns| then Abort(ts, IndexOutOfBounds(c, |ts[i].columns|))
          else Logged(ts, Ok(if isMin then env.api.min(ts[i].columns[c]) else env.api.max(ts[i].columns[c])))
  }

  /** `execute` without the history write: dispatch on the first word. */
  function Command(rev: Revision, ts: seq<Table>, query: string, sep: string, env: Env): (r: Effect)
    requires |sep| > 0
    ensures var verb := StripLeadingWord(query).0;
      r.tables == ts || verb == "new" || verb == "delete" || verb == "update"
    ensures r.out.Panicked? ==> r.tables == ts
  {
    var l1 := StripLeadingWord(query);
    match l1.0
    case "new" => NewCommand(rev, ts, l1.1, sep, env)
    case "delete" => DeleteCommand(ts, l1.1, sep, env)
    case "update" => UpdateCommand(ts, l1.1, sep, env)
    case "select" => SelectCommand(rev, ts, query, l1.1, sep, env)
    case "get" => GetCommand(ts, l1.1, env)
    case _ => Reply(ts, Err(InvalidSyntax))
  }

  // ----- properties of whole commands -----

  /** A first word other than the five verbs is a syntax error, with the tables unchanged. */
  lemma UnknownVerb(rev: Revision, ts: seq<Table>, query: string, sep: string, env: Env)
    requires |sep| > 0 && StripLeadingWord(query).0 !in ["new", "delete", "update", "select", "get"]
    ensures Command(rev, ts, query, sep, env) == Reply(ts, Err(InvalidSyntax))
  {
  }

  /** An unknown word after `new`, `delete` or `get` is an error, with the tables unchanged. */
  lemma UnknownSubVerb(rev: Revision, ts: seq<Table>, rest: string, sep: string, env: Env)
    requires |sep| > 0
    ensures var sub := StripLeadingWord(rest).0;
      sub !in ["table", "column", "data"] ==>
        && NewCommand(rev, ts, rest, sep, env) == Reply(ts, Err(InvalidSyntax))
        && DeleteCommand(ts, rest, sep, env) == Reply(ts, Err(InvalidSyntax))
    ensures var sub := StripLeadingWord(rest).0;
      sub !in ["min", "max", "len"] ==>
        GetCommand(ts, rest, env) == Reply(ts, Err(ShouldBe(sub, "one of [min/max/len]")))
  {
    var sub := StripLeadingWord(rest).0;
    if sub !in ["table", "column", "data"] {
      assert NewCommand(rev, ts, rest, sep, env) == Reply(ts, Err(InvalidSyntax));
      assert DeleteCommand(ts, rest, sep, env) == Reply(ts, Err(InvalidSyntax));
    }
    if sub !in ["min", "max", "len"] {
      assert GetCommand(ts, rest, env) == Reply(ts, Err(ShouldBe(sub, "one of [min/max/len]")));
    }
  }

  /**
   * `new table|column <name> <kw> ...` needs `with` inside its fourth word
   * (`kw` here); without it the command fails before anything changes.
   */
  lemma NewNeedsWith(rev: Revision, ts: seq<Table>, rest: string, sep: string, env: Env)
    requires |sep| > 0
    requires var l2 := StripLeadingWord(rest);
      (l2.0 == "table" || l2.0 == "column") && !Contains(StripLeadingWord(StripLeadingWord(l2.1).1).0, "with")
    ensures NewCommand(rev, ts, rest, sep, env) == Reply(ts, Err(InvalidSyntax))
  {
    if StripLeadingWord(rest).0 == "table" {
      assert NewCommand(rev, ts, rest, sep, env) == Reply(ts, Err(InvalidSyntax));
    } else {
      assert NewCommand(rev, ts, rest, sep, env) == Reply(ts, Err(InvalidSyntax));
    }
  }

  /**
   * `new table <name> <kw> <specs>` with valid specs appends exactly one table at the
   * end, built from the decoded specs. The older revision does so even when a
   * table of that name exists.
   */
  lemma NewTableAppends(rev: Revision, ts: seq<Table>, name: string, kw: string, specs: string, sep: string, env: Env)
    requires |sep| > 0 && ' ' !in name && ' ' !in kw && Contains(kw, "with") && ColumnSpecs(specs).Ok?
    requires rev == Legacy || !HasTable(ts, name)
    ensures NewCommand(rev, ts, Sentence(["table", name, kw], specs), sep, env)
         == Logged(ts + [env.api.build(name, ColumnSpecs(specs).value)], Ok(SuccessMessage(true)))
  {
    StripSentence(["table", name, kw], specs);
    StripSentence([name, kw], specs);
    StripSentence([kw], specs);
    assert ["table", name, kw][1..] == [name, kw] && [name, kw][1..] == [kw] && [kw][1..] == [];
    assert NewCommand(rev, ts, Sentence(["table", name, kw], specs), sep, env)
        == NewTable(rev, ts, name, Sentence([kw], specs), env);
  }

  /**
   * In lib.rs, `new table` naming an existing table succeeds without doing
   * anything, whatever follows `with`, and writes no history row.
   */
  lemma NewTableExisting(ts: seq<Table>, name: string, kw: string, specs: string, sep: string, env: Env)
    requires |sep| > 0 && ' ' !in name && ' ' !in kw && Contains(kw, "with") && HasTable(ts, name)
    ensures NewCommand(Current, ts, Sentence(["table", name, kw], specs), sep, env) == Reply(ts, Ok(SuccessMessage(true)))
  {
    StripSentence(["table", name, kw], specs);
    StripSentence([name, kw], specs);
    StripSentence([kw], specs);
  }

  /** `delete table <kw> <name>`: the first table of that name goes, or nothing changes. */
  lemma DeleteTableByName(ts: seq<Table>, kw: string, name: string, sep: string, env: Env)
    requires |sep| > 0 && ' ' !in kw
    ensures var e := DeleteCommand(ts, Sentence(["table", kw], name), sep, env);
      && (!Contains(kw, "with") || !HasTable(ts, name) ==> e == Reply(ts, Err(InvalidSyntax)))
      && (Contains(kw, "with") && HasTable(ts, name) ==>
            e == Logged(DeleteTableSpec(ts, name).0, Ok(SuccessMessage(true))))
  {
    StripSentence(["table", kw], name);
    StripSentence([kw], name);
  }

  /**
   * A failure of the table-level deletion behind `delete table`, `delete
   * column` or `delete data` reaches the caller as the generic syntax error
   * and writes no history row; a failed `delete table` leaves the tables as
   * they were.
   */
  lemma DeleteFailuresAreSyntaxErrors(ts: seq<Table>, rest: string, sep: string, env: Env)
    requires |sep| > 0
    ensures var e := DropTable(ts, rest);
      e.out.Answer? && (e.out.result.Err? ==> e.out == Answer(Err(InvalidSyntax)) && !e.logged && e.tables == ts)
    ensures var e := DropColumn(ts, rest, env);
      e.out.Answer? && (e.out.result.Err? ==> e.out == Answer(Err(InvalidSyntax)) && !e.logged)
    ensures var l3 := StripLeadingWord(rest);
      var l4 := StripLeadingWord(l3.1);
      var l5 := StripLeadingWord(l4.1);
      Contains(l3.0, "in") && HasTable(ts, l4.0) && Contains(l5.0, "where") ==>
        var i := TableIndex(ts, l4.0).value;
        var found := Conditions(ts[i], l5.1, sep, env);
        found.Ok? && env.api.deleteData(ts[i], found.value).1.Err? ==>
          DropRows(ts, rest, sep, env) == Reply(ts[i := env.api.deleteData(ts[i], found.value).0], Err(InvalidSyntax))
  {
    var l3 := StripLeadingWord(rest);
    if Contains(l3.0, "with") {
      var (ts', answ) := DeleteTableSpec(ts, l3.1);
      assert DropTable(ts, rest) == if answ.Ok? then Logged(ts', answ) else Reply(ts', Err(InvalidSyntax));
      if answ.Err? {
        assert ts' == ts;
      }
      var l4 := StripLeadingWord(l3.1);
      var l5 := StripLeadingWord(l4.1);
      if Contains(l5.0, "in") {
        var (cs, canswer) := DeleteColumnSpec(ts, l5.1, l4.0, env.api);
        assert DropColumn(ts, rest, env) == if canswer.Ok? then Logged(cs, canswer) else Reply(cs, Err(InvalidSyntax));
      }
    }
  }

  /**
   * `delete column with <column> in <table>` needs `with` in its third word
   * and `in` in its fifth; `delete data in <table> where [...]` needs `in`
   * in its third word, the table, and `where` in its fifth. Each missing
   * piece fails before anything changes.
   */
  lemma DeleteKeywords(ts: seq<Table>, rest: string, sep: string, env: Env)
    requires |sep| > 0
    ensures var l3 := StripLeadingWord(rest);
      var l5 := StripLeadingWord(StripLeadingWord(l3.1).1);
      !Contains(l3.0, "with") || !Contains(l5.0, "in") ==> DropColumn(ts, rest, env) == Reply(ts, Err(InvalidSyntax))
    ensures var l3 := StripLeadingWord(rest);
      !Contains(l3.0, "in") ==> DropRows(ts, rest, sep, env) == Reply(ts, Err(InvalidSyntax))
    ensures var l3 := StripLeadingWord(rest);
      var l4 := StripLeadingWord(l3.1);
      Contains(l3.0, "in") && !HasTable(ts, l4.0) ==> DropRows(ts, rest, sep, env) == Reply(ts, Err(TableNotFound(l4.0)))
    ensures var l3 := StripLeadingWord(rest);
      var l4 := StripLeadingWord(l3.1);
      Contains(l3.0, "in") && HasTable(ts, l4.0) && !Contains(StripLeadingWord(l4.1).0, "where") ==>
        DropRows(ts, rest, sep, env) == Reply(ts, Err(InvalidSyntax))
  {
  }

  /**
   * `update <name> <kw> [...] <kw2> ...` needs `where` inside `kw` and `with`
   * inside `kw2`; either failure names `kw` in its error and changes nothing.
   */
  lemma UpdateKeywords(ts: seq<Table>, rest: string, sep: string, env: Env)
    requires |sep| > 0
    ensures var l3 := StripLeadingWord(StripLeadingWord(rest).1);
      var l5 := StripLeadingWord(StripConditionList(l3.1).1);
      !Contains(l3.0, "where") || !Contains(l5.0, "with") ==>
        UpdateCommand(ts, rest, sep, env) == Reply(ts, Err(ShouldBe(l3.0, "where")))
  {
  }

  /**
   * A `select` fails with the tables unchanged when its column list is
   * neither `*` nor parenthesised, or when its third word lacks `from`.
   */
  lemma SelectNeedsFrom(rev: Revision, ts: seq<Table>, query: string, rest: string, sep: string, env: Env)
    requires |sep| > 0
    ensures StripColumnList(rest).Err? ==>
      SelectCommand(rev, ts, query, rest, sep, env) == Reply(ts, Err(StripColumnList(rest).error))
    ensures StripColumnList(rest).Ok? ==>
      var l3 := StripLeadingWord(StripColumnList(rest).value.1);
      !Contains(l3.0, "from") ==> SelectCommand(rev, ts, query, rest, sep, env) == Reply(ts, Err(ShouldBe(l3.1, "from")))
  {
  }

  /**
   * Once the column list, `from` and the table are in place, a `select`
   * whose fifth word lacks `where` fails, naming the text after that word:
   * always in main.rs, and in lib.rs unless it reads every row.
   */
  lemma SelectNeedsWhere(rev: Revision, ts: seq<Table>, query: string, rest: string, sep: string, env: Env)
    requires |sep| > 0 && StripColumnList(rest).Ok?
    requires var l2 := StripColumnList(rest).value;
      var l3 := StripLeadingWord(l2.1);
      var l4 := StripLeadingWord(l3.1);
      && Contains(l3.0, "from") && HasTable(ts, l4.0) && !Contains(StripLeadingWord(l4.1).0, "where")
      && (rev == Legacy || !SelectsAllRows(query, l2.0))
    ensures var l4 := StripLeadingWord(StripLeadingWord(StripColumnList(rest).value.1).1);
      SelectCommand(rev, ts, query, rest, sep, env) == Reply(ts, Err(ShouldBe(StripLeadingWord(l4.1).1, "where")))
  {
  }

  /**
   * main.rs has no all-rows path: a `select` whose text after the verb holds
   * no `where` always fails, writes no row and changes nothing.
   */
  lemma LegacySelectNeedsWhere(ts: seq<Table>, query: string, rest: string, sep: string, env: Env)
    requires |sep| > 0 && !Contains(rest, "where")
    ensures var e := SelectCommand(Legacy, ts, query, rest, sep, env);
      e.tables == ts && !e.logged && e.out.Answer? && e.out.result.Err?
  {
    match StripColumnList(rest)
    case Err(e) =>
      assert SelectCommand(Legacy, ts, query, rest, sep, env) == Reply(ts, Err(e));
    case Ok(l2) =>
      var l3 := StripLeadingWord(l2.1);
      if !Contains(l3.0, "from") {
        assert SelectCommand(Legacy, ts, query, rest, sep, env) == Reply(ts, Err(ShouldBe(l3.1, "from")));
      } else {
        var l4 := StripLeadingWord(l3.1);
        match TableIndex(ts, l4.0)
        case Err(e) =>
          assert SelectCommand(Legacy, ts, query, rest, sep, env) == Reply(ts, Err(e));
        case Ok(i) =>
          var l5 := StripLeadingWord(l4.1);
          assert !Contains(l5.0, "where") by {
            WhereWordInside(rest);
          }
          assert SelectCommand(Legacy, ts, query, rest, sep, env) == Reply(ts, Err(ShouldBe(l5.1, "where")));
      }
  }

  /** The fifth word of a `select` is part of the text after the verb. */
  lemma WhereWordInside(rest: string)
    requires StripColumnList(rest).Ok?
    ensures var l2 := StripColumnList(rest).value;
      var l4 := StripLeadingWord(StripLeadingWord(l2.1).1);
      Contains(StripLeadingWord(l4.1).0, "where") ==> Contains(rest, "where")
  {
    var l2 := StripColumnList(rest).value;
    ColumnListInside(rest, "where");
    var l3 := StripLeadingWord(l2.1);
    LeadingWordInside(l2.1, "where");
    var l4 := StripLeadingWord(l3.1);
    LeadingWordInside(l3.1, "where");
    LeadingWordInside(l4.1, "where");
  }

  /** For the whole command: in main.rs a `select` with no `where` anywhere fails. */
  lemma LegacySelectCommandNeedsWhere(ts: seq<Table>, query: string, sep: string, env: Env)
    requires |sep| > 0 && StripLeadingWord(query).0 == "select" && !Contains(query, "where")
    ensures var e := Command(Legacy, ts, query, sep, env);
      e.tables == ts && !e.logged && e.out.Answer? && e.out.result.Err?
  {
    var rest := StripLeadingWord(query).1;
    LeadingWordInside(query, "where");
    assert Command(Legacy, ts, query, sep, env) == SelectCommand(Legacy, ts, query, rest, sep, env);
    LegacySelectNeedsWhere(ts, query, rest, sep, env);
  }

  /**
   * `get len of <table>` needs `of` in its third word; `get min|max in
   * <column> from <table>` needs `in` in its third word and `from` in its
   * fifth. Each missing keyword is reported with the word found there, and
   * `get` never changes the tables.
   */
  lemma GetKeywords(ts: seq<Table>, rest: string, env: Env)
    ensures var l2 := StripLeadingWord(rest);
      var l3 := StripLeadingWord(l2.1);
      l2.0 == "len" && !Contains(l3.0, "of") ==> GetCommand(ts, rest, env) == Reply(ts, Err(ShouldBe(l3.0, "of")))
    ensures var l2 := StripLeadingWord(rest);
      var l3 := StripLeadingWord(l2.1);
      (l2.0 == "min" || l2.0 == "max") && !Contains(l3.0, "in") ==>
        GetCommand(ts, rest, env) == Reply(ts, Err(ShouldBe(l3.0, "in")))
    ensures var l2 := StripLeadingWord(rest);
      var l3 := StripLeadingWord(l2.1);
      var l5 := StripLeadingWord(StripLeadingWord(l3.1).1);
      (l2.0 == "min" || l2.0 == "max") && Contains(l3.0, "in") && !Contains(l5.0, "from") ==>
        GetCommand(ts, rest, env) == Reply(ts, Err(ShouldBe(l5.0, "from")))
  {
  }

  /**
   * lib.rs reads every row of the table when the command holds no `where`,
   * once the column list, `from` and the table name are in place.
   */
  lemma SelectWithoutWhere(ts: seq<Table>, query: string, rest: string, sep: string, env: Env)
    requires |sep| > 0 && !Contains(query, "where") && StripColumnList(rest).Ok?
    requires var l2 := StripColumnList(rest).value;
      var l3 := StripLeadingWord(l2.1);
      Contains(l3.0, "from") && HasTable(ts, StripLeadingWord(l3.1).0)
    ensures var l2 := StripColumnList(rest).value;
      var t := ts[TableIndex(ts, StripLeadingWord(StripLeadingWord(l2.1).1).0).value];
      SelectCommand(Current, ts, query, rest, sep, env)
        == Logged(ts, Ok(env.api.selectData(t, SelectedColumns(l2.0, t), env.api.selectAllRows(t))))
  {
  }
}
