/**
 * The `Neith` engine of the older main.rs: only the tables and the
 * job-history switch. The switch is stored but nothing reads it, no
 * history row is ever written, and every field list is split at `,+`.
 */
module LegacyEngine {
  import opened Rust
  import opened Values
  import opened Tables
  import opened Util
  import opened Commands
  import opened Runner

  /** The separator util.rs splits field lists and conditions at. */
  const LegacySplitPattern: string := ",+"

  /**
   * main.rs never checks for a table of the same name: `new table` always
   * appends, so after it the old name resolves to the first of possibly
   * several tables called that.
   */
  lemma LegacyNewTableAppends(ts: seq<Table>, name: string, kw: string, specs: string, env: Env)
    requires ' ' !in name && ' ' !in kw && Contains(kw, "with") && ColumnSpecs(specs).Ok?
    ensures Command(Legacy, ts, Sentence(["new", "table", name, kw], specs), LegacySplitPattern, env)
         == Logged(ts + [env.api.build(name, ColumnSpecs(specs).value)], Ok(SuccessMessage(true)))
  {
    StripSentence(["new", "table", name, kw], specs);
    assert Command(Legacy, ts, Sentence(["new", "table", name, kw], specs), LegacySplitPattern, env)
        == NewCommand(Legacy, ts, Sentence(["table", name, kw], specs), LegacySplitPattern, env);
    NewTableAppends(Legacy, ts, name, kw, specs, LegacySplitPattern, env);
  }

  class LegacyNeith {
    var tables: seq<Table>
    var jobHistory: bool

    /** `Neith::default()` of main.rs. */
    constructor ()
      ensures tables == [] && !jobHistory
    {
      tables := [];
      jobHistory := false;
    }

    /** `set_job_history` of main.rs: the switch only. */
    method SetJobHistory(value: bool) returns (s: Success)
      modifies this
      ensures tables == old(tables) && jobHistory == value
      ensures s == SuccessMessage(value)
    {
      jobHistory := value;
      return SuccessMessage(value);
    }

    /** `delete_table` of main.rs. */
    method DeleteTable(tablename: string) returns (r: Result<Success>)
      modifies this
      ensures jobHistory == old(jobHistory)
      ensures (tables, r) == DeleteTableSpec(old(tables), tablename)
    {
      tables, r := RemoveTable(tables, tablename);
    }

    /** `delete_column` of main.rs. */
    method DeleteColumn(tablename: string, columnname: string, api: TableApi) returns (r: Result<Success>)
      modifies this
      ensures jobHistory == old(jobHistory)
      ensures (tables, r) == DeleteColumnSpec(old(tables), tablename, columnname, api)
    {
      tables, r := RemoveColumn(tables, tablename, columnname, api);
    }

    /** `execute` of main.rs: the command on the tables, the switch untouched. */
    method Execute(query: string, env: Env) returns (out: Outcome)
      modifies this
      ensures jobHistory == old(jobHistory)
      ensures var eff := Command(Legacy, old(tables), query, LegacySplitPattern, env);
        tables == eff.tables && out == eff.out
    {
      var e := RunCommand(Legacy, tables, query, LegacySplitPattern, env);
      tables := e.tables;
      out := e.out;
    }
  }
}
