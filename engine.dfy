/**
 * The `Neith` engine of lib.rs: the tables, the job-history switch and the
 * split pattern, updated by `execute`, `set_job_history` and the table
 * deletions. After a command that reaches its history point, lib.rs writes
 * one row into the job-history table when the switch is on.
 */
module Engine {
  import opened Rust
  import opened Values
  import opened Tables
  import opened Util
  import opened Commands
  import opened Runner

  /** The two clock readings of `execute`: the RFC 3339 date and the elapsed microseconds. */
  datatype Clock = Clock(date: string, micros: nat)

  /** The state of a `Neith` value. */
  datatype Db = Db(tables: seq<Table>, jobHistory: bool, jobHistoryTableIndex: Option<nat>, splitPattern: string)

  const DefaultSplitPattern: string := ",+"
  const HistoryTable: string := "job_history"
  const HistoryColumns: seq<ColumnSpec> := [("id", true), ("command", false), ("time", false), ("duration", false)]

  /** `Neith::default()`. */
  function DefaultDb(): (db: Db)
    ensures db.tables == [] && !db.jobHistory && db.jobHistoryTableIndex.None? && |db.splitPattern| > 0
  {
    Db([], false, None, DefaultSplitPattern)
  }

  /** The field list that `write_history` decodes into the history row. */
  function HistoryText(id: string, binding: string, clock: Clock, sp: string): string
  {
    "(id = " + id + sp + " command = " + binding + sp + " time = " + clock.date + sp
      + " duration = " + DecimalString(clock.micros) + ")"
  }

  /**
   * `write_history` followed by the `?` of its caller: the row goes into the
   * table at `job_history_table_index`; `out` is what the command returns
   * when the write succeeds.
   */
  function History(ts: seq<Table>, index: Option<nat>, binding: string, clock: Clock, sp: string, env: Env, out: Outcome)
    : (r: (seq<Table>, Outcome))
    requires |sp| > 0
    ensures |r.0| == |ts|
    ensures forall j :: 0 <= j < |ts| && Some(j) != index ==> r.0[j] == ts[j]
  {
    match index
    case None => (ts, Panicked(UnwrapNone))
    case Some(i) =>
      if i >= |ts| then (ts, Panicked(IndexOutOfBounds(i, |ts|)))
      else
        var id := DecimalString(env.api.len(ts[i]));
        var decoded := ColumnData(HistoryText(id, binding, clock, sp), sp, env.data);
        var (t, answ) := env.api.newData(ts[i], decoded);
        match answ
        case Err(e) => (ts[i := t], Answer(Err(e)))
        case Ok(_) => (ts[i := t], out)
  }

  /** `execute` of lib.rs: the command, then the history row if it is due. */
  function Exec(db: Db, query: string, clock: Clock, env: Env): (r: (seq<Table>, Outcome))
    requires |db.splitPattern| > 0
    ensures var eff := Command(Current, db.tables, query, db.splitPattern, env);
      && |r.0| == |eff.tables|
      && (forall j :: 0 <= j < |eff.tables| && Some(j) != db.jobHistoryTableIndex ==> r.0[j] == eff.tables[j])
      && (!db.jobHistory || !eff.logged ==> r == (eff.tables, eff.out))
  {
    var eff := Command(Current, db.tables, query, db.splitPattern, env);
    if eff.logged && db.jobHistory then
      History(eff.tables, db.jobHistoryTableIndex, query, clock, db.splitPattern, env, eff.out)
    else (eff.tables, eff.out)
  }

  /** `set_job_history`: the switch, and the index of the history table when it is turned on. */
  function SetJobHistorySpec(db: Db, value: bool, api: TableApi): (r: Db)
    ensures r.jobHistory == value && r.splitPattern == db.splitPattern
    ensures !value ==> r == db.(jobHistory := false)
    ensures value ==> r.jobHistoryTableIndex.Some? && r.jobHistoryTableIndex.value < |r.tables|
    ensures value && HasTable(db.tables, HistoryTable) ==>
      r.tables == db.tables && r.jobHistoryTableIndex == FirstIndex(db.tables, HistoryTable)
    ensures value && !HasTable(db.tables, HistoryTable) ==>
      r.tables == db.tables + [api.build(HistoryTable, HistoryColumns)]
      && r.jobHistoryTableIndex == Some(|db.tables|)
  {
    var db1 := db.(jobHistory := value);
    if HasTable(db.tables, HistoryTable) && value then
      db1.(jobHistoryTableIndex := Some(TableIndex(db.tables, HistoryTable).value))
    else if !HasTable(db.tables, HistoryTable) && value then
      var ts := db.tables + [api.build(HistoryTable, HistoryColumns)];
      // `len().saturating_sub(1)` of a vector that has just grown
      db1.(tables := ts, jobHistoryTableIndex := Some(|ts| - 1))
    else db1
  }

  /**
   * Turning the history on a second time changes nothing, provided the table
   * built for it is called `job_history`: the first call either found that
   * table or appended it, and the second finds it at the same index.
   */
  lemma SetJobHistoryIdempotent(db: Db, api: TableApi)
    requires api.build(HistoryTable, HistoryColumns).name == HistoryTable
    ensures SetJobHistorySpec(SetJobHistorySpec(db, true, api), true, api) == SetJobHistorySpec(db, true, api)
  {
    if !HasTable(db.tables, HistoryTable) {
      var ts := db.tables + [api.build(HistoryTable, HistoryColumns)];
      assert ts[|db.tables|].name == HistoryTable;
      assert forall j :: 0 <= j < |db.tables| ==> ts[j].name != HistoryTable by {
        assert forall j :: 0 <= j < |db.tables| ==> ts[j] == db.tables[j];
      }
      assert FirstIndex(ts, HistoryTable) == Some(|db.tables|);
    }
  }

  /**
   * With the history on or off, `new table` naming an existing table leaves
   * the tables alone, reports success and writes no history row.
   */
  lemma ExistingTableWritesNoHistory(db: Db, name: string, kw: string, specs: string, clock: Clock, env: Env)
    requires |db.splitPattern| > 0 && ' ' !in name && ' ' !in kw && Contains(kw, "with") && HasTable(db.tables, name)
    ensures Exec(db, Sentence(["new", "table", name, kw], specs), clock, env) == (db.tables, Answer(Ok(SuccessMessage(true))))
  {
    var sp := db.splitPattern;
    StripSentence(["new", "table", name, kw], specs);
    assert Command(Current, db.tables, Sentence(["new", "table", name, kw], specs), sp, env)
        == NewCommand(Current, db.tables, Sentence(["table", name, kw], specs), sp, env);
    NewTableExisting(db.tables, name, kw, specs, sp, env);
  }

  /**
   * The history row is written after the command's own change: every table
   * but the history table is as the command left it, and a failed write
   * reaches the caller as that error although the change stays.
   */
  lemma HistoryAfterChange(db: Db, query: string, clock: Clock, env: Env)
    requires |db.splitPattern| > 0 && db.jobHistory
    requires var eff := Command(Current, db.tables, query, db.splitPattern, env);
      eff.logged && db.jobHistoryTableIndex.Some? && db.jobHistoryTableIndex.value < |eff.tables|
    ensures var eff := Command(Current, db.tables, query, db.splitPattern, env);
      var i := db.jobHistoryTableIndex.value;
      var id := DecimalString(env.api.len(eff.tables[i]));
      var row := ColumnData(HistoryText(id, query, clock, db.splitPattern), db.splitPattern, env.data);
      var answ := env.api.newData(eff.tables[i], row).1;
      var (ts, out) := Exec(db, query, clock, env);
      && |ts| == |eff.tables|
      && (forall j :: 0 <= j < |ts| && j != i ==> ts[j] == eff.tables[j])
      && ts[i] == env.api.newData(eff.tables[i], row).0
      && (answ.Err? ==> out == Answer(Err(answ.error)))
      && (answ.Ok? ==> out == eff.out)
  {
  }

  class Neith {
    var tables: seq<Table>
    var jobHistory: bool
    var jobHistoryTableIndex: Option<nat>
    var splitPattern: string

    /** The split pattern is never empty: both constructors of lib.rs set `",+"`. */
    predicate Valid()
      reads this
    {
      |splitPattern| > 0
    }

    function State(): Db
      reads this
    {
      Db(tables, jobHistory, jobHistoryTableIndex, splitPattern)
    }

    /** `Neith::default()`. */
    constructor ()
      ensures Valid() && State() == DefaultDb()
    {
      tables := [];
      jobHistory := false;
      jobHistoryTableIndex := None;
      splitPattern := DefaultSplitPattern;
    }

    /** `set_job_history`. */
    method SetJobHistory(value: bool, api: TableApi) returns (s: Success)
      modifies this
      ensures State() == SetJobHistorySpec(old(State()), value, api)
      ensures s == SuccessMessage(value)
    {
      jobHistory := value;
      var found := ExistsTable(tables, HistoryTable);
      if found && jobHistory {
        var index := SearchForTable(tables, HistoryTable);
        jobHistoryTableIndex := Some(index.value);
        return SuccessMessage(value);
      } else if !found && jobHistory {
        tables := tables + [api.build(HistoryTable, HistoryColumns)];
        jobHistoryTableIndex := Some(|tables| - 1);
      }
      return SuccessMessage(value);
    }

    /** `delete_table`: `job_history_table_index` is left as it was. */
    method DeleteTable(tablename: string) returns (r: Result<Success>)
      modifies this
      ensures jobHistory == old(jobHistory) && jobHistoryTableIndex == old(jobHistoryTableIndex)
      ensures splitPattern == old(splitPattern)
      ensures (tables, r) == DeleteTableSpec(old(tables), tablename)
    {
      tables, r := RemoveTable(tables, tablename);
    }

    /** `delete_column`. */
    method DeleteColumn(tablename: string, columnname: string, api: TableApi) returns (r: Result<Success>)
      modifies this
      ensures jobHistory == old(jobHistory) && jobHistoryTableIndex == old(jobHistoryTableIndex)
      ensures splitPattern == old(splitPattern)
      ensures (tables, r) == DeleteColumnSpec(old(tables), tablename, columnname, api)
    {
      tables, r := RemoveColumn(tables, tablename, columnname, api);
    }

    /**
     * `write_history` with the `?` of its caller: `out` is what the command
     * returns once the row is written.
     */
    method WriteHistory(binding: string, clock: Clock, env: Env, out: Outcome) returns (res: Outcome)
      requires Valid()
      modifies this
      ensures jobHistory == old(jobHistory) && jobHistoryTableIndex == old(jobHistoryTableIndex)
      ensures splitPattern == old(splitPattern)
      ensures (tables, res) == History(old(tables), jobHistoryTableIndex, binding, clock, splitPattern, env, out)
    {
      if jobHistoryTableIndex.None? {
        return Panicked(UnwrapNone);
      }
      var i := jobHistoryTableIndex.value;
      if i >= |tables| {
        return Panicked(IndexOutOfBounds(i, |tables|));
      }
      var id := DecimalString(env.api.len(tables[i]));
      var decoded := DecodeListColumnData(HistoryText(id, binding, clock, splitPattern), splitPattern, env.data);
      var (t, answ) := env.api.newData(tables[i], decoded);
      tables := tables[i := t];
      if answ.Err? {
        return Answer(Err(answ.error));
      }
      return out;
    }

    /** `execute`: the command on the tables, then the history row when it is due. */
    method Execute(query: string, clock: Clock, env: Env) returns (out: Outcome)
      requires Valid()
      modifies this
      ensures Valid()
      ensures jobHistory == old(jobHistory) && jobHistoryTableIndex == old(jobHistoryTableIndex)
      ensures splitPattern == old(splitPattern)
      ensures (tables, out) == Exec(old(State()), query, clock, env)
    {
      var e := RunCommand(Current, tables, query, splitPattern, env);
      tables := e.tables;
      out := e.out;
      if e.logged && jobHistory {
        out := WriteHistory(query, clock, env, out);
      }
    }
  }
}
