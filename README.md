# neith: the NQL command pipeline in Dafny

Neith is a small in-memory database. Its one entry point, `Neith::execute`,
takes a query written in NQL, a word-based command language
(`new table t with (a true, b false)`,
`update t where [a = 1, and b = 2] with (b = 3)`,
`select * from t where [...]`, `get len of t`, …). It answers with a
`Success` value or an error. This project models the path a query takes:
- the decoders of `src/utils/util.rs`, which cut a query into words,
  column lists, field lists and condition lists;
- `condition_check`, the set algebra that joins the row numbers of two
  searches with `and`, `not`, `or` or `xor`;
- the engine of `src/lib.rs`: the tables, the job-history switch with the
  index of its table, and the split pattern `,+`;
- the older engine in `src/main.rs`, which keeps only the tables and a
  history switch that nothing reads.

The files, from the bottom up:

- `rust.dfy` (`Rust`): the few standard-library string operations the
  source relies on, written out: `splitn`, `split`, `replace`,
  `trim_start`, `split_whitespace`, `contains`. Neith passes strings,
  not bytes, to them.
- `values.dfy` (`Values`): `Data`, `Success`, the errors, and `Outcome`.
  An `Outcome` is either an answer or a panic: `unwrap` on an error or on
  `None`, or an index out of bounds.
  `AllOk` is the loop-with-`?` idiom that stops at the first error.
- `tables.dfy` (`Tables`): a table is a name and named columns. The table
  and column methods the engine calls are not part of this model. They
  arrive as the function-valued fields of a `TableApi`; `Data::from` and
  `Data::default` arrive in a `DataApi`.
- `util.dfy` (`Util`): the decoders, each a specification function plus
  a method with the source's loop proved equal to it. Lemmas state the
  round trips and what each decoder keeps:
  - `decode_columnmaker` on a well-formed list gives back the specs;
  - `decode_single_columndata` gives back its name and its words;
  - the list scanner of `decode_list_columndata`.
- `condition_check.dfy` (`RowSets`): the four operators as functions on
  row sequences, with what each means as a set. `and` is an intersection,
  `not` a difference, `or` a duplicate-free union. `xor` is the symmetric
  difference as long as the second search has no duplicate, and not
  otherwise.
- `commands.dfy` (`Commands`): what one command does to a list of tables,
  shared by both engines. A `Revision` (`Current` for lib.rs, `Legacy`
  for main.rs) picks the two places where they differ. lib.rs skips
  `new table` when a table of that name exists, and it reads every row for
  a `select` without `where`.
  `search_conditionals` is here too: conditions fold strictly from the
  left, with no operator precedence.
- `runner.dfy` (`Runner`): the command dispatch as methods, one per branch
  of `execute`, each proved equal to its function in `Commands`.
- `engine.dfy` (`Engine`): class `Neith` of lib.rs. After a command that
  reaches its history point, it writes a row into the job-history table
  when the switch is on.
- `legacy_engine.dfy` (`LegacyEngine`): class `LegacyNeith` of main.rs.

Some behaviour of the source that the contracts pin down:
- An `Err` from a table-level deletion (`delete_table`, `delete_column`,
  or the table's own `delete_data`) reaches the caller as the generic
  "Invalid nql syntax." error (`Commands.DeleteFailuresAreSyntaxErrors`).
- Deleting a table never adjusts `job_history_table_index`
  (`Engine.Neith.DeleteTable`). Deleting a table that comes before the
  history table leaves the index pointing at a different table.
- While a nested `( … )` list is read, `decode_list_columndata`
  accumulates its pieces in `list_store` and never empties it. A second
  nested list in the same row is decoded together with the first, so
  both fields get the first one's name (`SecondListKeepsFirstName`).

The split pattern is a parameter. At this revision `src/utils/util.rs`
takes no separator and splits on `,+`, while lib.rs calls its decoders with
its `split_pattern` field as a second argument (lib.rs:213, 311, 450, 471). The
model follows lib.rs and passes the pattern in; main.rs always uses `,+`.

## Model

| member | source | states |
|---|---|---|
| Values.AllOk | src/utils/util.rs:154-181 | a loop with an early `return Err` succeeds exactly when every element does, then yields every value in order; otherwise it yields the error of the first failing element |
| Tables.FirstIndex | src/lib.rs:539-548 | the index found holds a table of that name and no earlier table has it; none is found exactly when no table has the name |
| Util.StripLeadingWord | src/utils/util.rs:7-12 | with a space in the text, the word, one space and the remainder give the text back and the word has no space; without one, the word is the whole text and the remainder is empty |
| Util.LeadingWordOf | src/utils/util.rs:7-12 | a space-free word followed by a space and any text is split back into that word and that text |
| Util.StripSentence | src/utils/util.rs:7-12 | a sentence of space-free words is taken apart one word per call, the rest staying a sentence of the remaining words |
| Util.LeadingWordInside | src/utils/util.rs:7-12 | anything the word or the remainder contains, the input contains |
| Util.CutAfter | src/utils/util.rs:13-19 | the first part is the input up to and including the first `c`, which it contains only at its end; the rest is what follows, start-trimmed; with no `c`, the whole input with `c` appended and an empty rest |
| Util.StripConditionList | src/utils/util.rs:13-19 | the condition list ends in its only `]`, is a prefix of the input when the input has one and is the input plus `]` otherwise; the remainder is what follows it with leading whitespace removed |
| Util.StripColumnList | src/utils/util.rs:20-33 | fails exactly when the input starts with neither `*` nor `(`, with that input in the error; `*` lists split like a leading word; `(` lists end at the first `)`, or get one appended when there is none, and the remainder is trimmed |
| Util.ColumnListInside | src/utils/util.rs:20-33 | anything the remainder after a column list contains, the input contains |
| Util.Unparen | src/utils/util.rs:56 | the text holds exactly the characters of the input other than `(` and `)` |
| Util.SelectedColumns | src/utils/util.rs:48-65 | with `*` in the input, every column name of the table in order; otherwise each comma-separated piece of the unparenthesised input, trimmed, in order |
| Util.DecodeColumnList | src/utils/util.rs:48-65 | the loop returns exactly `SelectedColumns` |
| Util.DecodeColumnMaker | src/utils/util.rs:66-86 | the loop returns exactly `ColumnSpecs`: it succeeds exactly when every piece parses as `name bool`, and then yields one spec per piece, in order |
| Util.ColumnSpecs | src/utils/util.rs:66-86 | succeeds exactly when every comma-separated piece of the unparenthesised list parses as `name bool`, and then yields one spec per piece, in order; otherwise it fails with the error of the first piece that does not parse |
| Util.ParseSpecText | src/utils/util.rs:72-82 | a column written as `name true` or `name false` parses back to that name and flag |
| Util.ColumnSpecsRoundTrip | src/utils/util.rs:66-86 | a non-empty list of specs written as `(name flag,name flag,…)` decodes to exactly those specs |
| Util.DecodeSingleRoundTrip | src/utils/util.rs:120-131 | `name = w1 w2 …` of plain words decodes to that name and the words joined by single spaces |
| Util.DecodeSingleName | src/utils/util.rs:120-131 | whatever follows ` = `, the field is named by the plain word before it |
| Util.DecodeSingleColumnData | src/utils/util.rs:120-131 | the definition: every `=` is dropped, and every `]` when there is one; the first whitespace-separated word is the name and the other words, joined by single spaces, go through `Data::from`; a text without words gives an empty name (its properties are in `DecodeSingleRoundTrip` and `DecodeSingleName`) |
| Util.CleanFieldList | src/utils/util.rs:90-95 | the definition: the first `(` is removed; then, when the text ends in `))`, its first `))` (wherever it is) becomes `)`, and otherwise every trailing `)` is trimmed |
| Util.ScanStep | src/utils/util.rs:99-115 | one entry adds at most one field and keeps the fields before it; a step that leaves a nested list open saw no `)` and adds no field; a plain entry outside a list is decoded on its own, the store untouched |
| Util.ScanOutGrows | src/utils/util.rs:99-115 | the scan keeps the fields it started with as a prefix and adds at most one field per entry |
| Util.ColumnData | src/utils/util.rs:88-117 | a field list decodes to at most one field per separator-split entry |
| Util.DecodeListColumnData | src/utils/util.rs:88-117 | the loop returns exactly the left-to-right scan `ColumnData` over the `,+`-separated entries |
| Util.ScanFromAppend | src/utils/util.rs:99-115 | scanning two runs of entries is scanning the first and then the second from where it stopped |
| Util.ScanPlain | src/utils/util.rs:111-114 | outside a nested list, entries without `(` each decode to one field, in order, and the store is untouched |
| Util.ScanOpenList | src/utils/util.rs:100-110 | entries of an open nested list with no `)` only grow the store, each followed by a comma |
| Util.ScanCloseList | src/utils/util.rs:100-110 | the entry holding `)` closes the nested list: one field is decoded from the whole store, and the store keeps that text |
| Util.ScanStoreGrows | src/utils/util.rs:97-110 | the store is only ever extended, never emptied |
| Util.TwoListsScan | src/utils/util.rs:97-110 | two nested lists in one row give two fields, the second decoded from the first list, a comma, and the second list |
| Util.SecondListKeepsFirstName | src/utils/util.rs:97-110 | consequently both fields of such a row carry the first field's name |
| Util.ConditionPiece | src/utils/util.rs:139-150 | an entry is accepted exactly when it starts with ` and`, ` not` or ` or` or contains ` = `; an operator entry gives its word and the remainder, a pair gives itself, and a rejection names the cleaned list |
| Util.DecodedConditions | src/utils/util.rs:135-153 | decoding succeeds exactly when every separator-split entry of the bracket-free text is an operator entry or a pair, and then returns, entry by entry in order, the pieces `ConditionPiece` gives (an operator entry split into its word and the rest, a pair kept whole) |
| Util.DecodeListConditions | src/utils/util.rs:135-153 | the loop returns exactly `DecodedConditions` |
| Util.EncodeCondition | src/utils/util.rs:156-178 | the definition: `[` is dropped, or else `]`; a text holding ` = ` decodes as a field, one holding `and`, `not` or `or` becomes itself with `Data::default()`, and anything else is rejected naming the cleaned text |
| Util.EncodedConditions | src/utils/util.rs:154-181 | encoding succeeds exactly when every text encodes, and then gives one field per text, in order |
| Util.EncodeListConditions | src/utils/util.rs:154-181 | the loop returns exactly `EncodedConditions` |
| Util.EncodeOperator | src/utils/util.rs:170-175 | `and`, `not` and `or` encode as themselves with the default data, the marker of an operator |
| Util.EncodePair | src/utils/util.rs:165-169 | a bracket-free `name = value` term encodes as `decode_single_columndata` decodes it, so to a field named `name` |
| Util.EncodePairData | src/utils/util.rs:165-169 | a bracket-free `name = w1 w2 ...` term of plain words encodes to the name and `Data::from` of the words joined by single spaces |
| RowSets.Filter | src/utils/util.rs:185-198 | keeps, in order, exactly the rows of the first search whose presence in the second matches `keep` |
| RowSets.FilterAppend | src/utils/util.rs:186-190 | filtering distributes over concatenation of the first search |
| RowSets.FilterNoDup | src/utils/util.rs:185-198 | filtering a duplicate-free search gives a duplicate-free result |
| RowSets.AddMissing | src/utils/util.rs:200-211 | pushing the missing rows keeps the accumulator as a prefix, holds exactly the rows of both, and keeps it duplicate-free |
| RowSets.Dedup | src/utils/util.rs:200-205 | holds each row of the input exactly once |
| RowSets.DedupNoDup | src/utils/util.rs:200-205 | a search without duplicates passes unchanged |
| RowSets.Or | src/utils/util.rs:199-212 | `or` is the duplicate-free union, starting with the first search's rows in their first-occurrence order |
| RowSets.FirstPos | src/utils/util.rs:224 | `position` finds the first occurrence of the row |
| RowSets.FirstPosUnique | src/utils/util.rs:224 | any index of the first occurrence is the one `position` returns |
| RowSets.RemoveFirst | src/utils/util.rs:224-225 | removing at that position drops one element |
| RowSets.RemoveFirstNoDup | src/utils/util.rs:224-225 | in a duplicate-free sequence it removes exactly that row and keeps no duplicates |
| RowSets.ToggleSymmetric | src/utils/util.rs:220-227 | toggling duplicate-free rows against a duplicate-free accumulator leaves exactly the rows in one but not both |
| RowSets.Toggle | src/utils/util.rs:220-227 | toggling keeps a duplicate-free accumulator duplicate-free, whatever rows it toggles |
| RowSets.Xor | src/utils/util.rs:213-229 | `xor` never returns a duplicate, even when the second search has one |
| RowSets.XorSymmetricDifference | src/utils/util.rs:213-229 | when the second search has no duplicates, `xor` is the duplicate-free symmetric difference |
| RowSets.XorSelf | src/utils/util.rs:213-229 | a duplicate-free search `xor` itself is empty |
| RowSets.XorDuplicates | src/utils/util.rs:213-229 | with a duplicated row in the second search the toggle runs twice: `[1, 1] xor [1, 1]` is `[1]` |
| RowSets.CheckSpec | src/utils/util.rs:182-233 | fails, with the generic syntax error, exactly when the operator is none of `and`, `not`, `or`, `xor` |
| RowSets.AndIsIntersection | src/utils/util.rs:185-191 | `and` succeeds and holds exactly the rows in both searches, without duplicates when the first has none |
| RowSets.NotIsDifference | src/utils/util.rs:192-198 | `not` succeeds and holds exactly the rows of the first search missing from the second |
| RowSets.AndNotPartition | src/utils/util.rs:185-198 | `and` and `not` split the first search between them: their lengths add up to its length |
| RowSets.ConditionCheck | src/utils/util.rs:182-233 | the loops return exactly `CheckSpec` |
| RowSets.KeepIf | src/utils/util.rs:186-197 | the `and`/`not` loop returns exactly `Filter` |
| RowSets.PushMissing | src/utils/util.rs:201-210 | the push-if-absent loop returns exactly `AddMissing` |
| RowSets.PushOrRemove | src/utils/util.rs:220-227 | the push-or-remove loop returns exactly the toggle |
| RowSets.Position | src/utils/util.rs:224 | the search loop returns exactly `FirstPos` |
| Commands.TableIndex | src/lib.rs:539-548 | succeeds exactly when a table has the name, with the first such index; otherwise the not-found error names it |
| Commands.ExistsTable | src/lib.rs:455-462 | true exactly when some table has the name |
| Commands.SearchForTable | src/lib.rs:539-548 | the counting loop returns exactly `TableIndex` |
| Commands.DeleteTableSpec | src/lib.rs:549-552 | a missing table is an error that changes nothing; otherwise the first table of that name is removed and the answer is success |
| Commands.DeleteTableKeepsOthers | src/lib.rs:549-552 | deleting removes exactly one table, keeps the others in order, and keeps later tables of the same name |
| Commands.DeleteColumnSpec | src/lib.rs:553-561 | a missing table is an error that changes nothing; the table count never changes; success is only ever `SuccessMessage(true)` |
| Commands.DeleteColumnChecksAnswer | src/lib.rs:553-561 | the table becomes what its deletion left; an error passes through, any success other than `SuccessMessage(true)` becomes the deletion error |
| Commands.Fold | src/lib.rs:507-535 | entries that are all operators leave the rows found so far unchanged |
| Commands.Conditions | src/lib.rs:470-538 | the definition: the list is decoded and encoded, then handled by its number of entries (as `ConditionsByLength` states), the entries after the third being folded onto the first join |
| Commands.ConditionsByLength | src/lib.rs:480-506 | no entries is a syntax error, one is a plain search, two give no rows, three join two searches with the middle operator |
| Commands.FoldLeftToRight | src/lib.rs:507-535 | five entries `a op1 b op2 c` are joined strictly as `(a op1 b) op2 c` |
| Commands.FoldNeedsOperator | src/lib.rs:520-533 | a fourth entry that is a term meets the empty operator and fails the search |
| Commands.FoldTrailingOperator | src/lib.rs:523-533 | an operator with no term after it is ignored |
| Commands.SearchConditionals | src/lib.rs:470-538 | the loop over the encoded entries returns exactly `Conditions` |
| Commands.Command | src/lib.rs:159-443 | only `new`, `delete` and `update` can change the tables, and a panic leaves them as they were |
| Commands.NewCommand | src/lib.rs:167-228 | a panic leaves the tables as they were; anything but `new table` keeps the table count and changes at most one table |
| Commands.NewTable | src/lib.rs:172-191 | either nothing changes, or exactly one table is appended behind the old ones and the command reaches the history write with `SuccessMessage(true)`; in lib.rs an existing name changes nothing and writes no row |
| Commands.NewColumns | src/lib.rs:192-210 | changes at most the named table; the panic of `unwrap` changes nothing; the only success is `SuccessMessage(true)` |
| Commands.NewRows | src/lib.rs:211-225 | changes at most the named table and never panics; the only success is `SuccessMessage(true)`; a missing table is the not-found error with nothing changed |
| Commands.DeleteCommand | src/lib.rs:229-301 | never panics, and reaches the history write exactly when it succeeds |
| Commands.DropTable | src/lib.rs:232-248 | never panics; a success removes one table, answers `SuccessMessage(true)` and reaches the history write; a failure is the generic syntax error with the tables untouched |
| Commands.DropColumn | src/lib.rs:249-272 | changes at most one table and never panics; a success is `SuccessMessage(true)` and reaches the history write; any failure is the generic syntax error without it |
| Commands.DropRows | src/lib.rs:273-298 | changes at most one table, never panics, and reaches the history write exactly when it succeeds |
| Commands.UpdateCommand | src/lib.rs:302-328 | changes at most one table and never panics |
| Commands.UpdateRows | src/lib.rs:305-322 | changes at most the named table and never panics; the only success is `SuccessMessage(true)`; a command that stops before the history write failed; a missing table is the not-found error with nothing changed |
| Commands.SelectCommand | src/lib.rs:329-366 | never changes the tables and never panics, and reaches the history write exactly when it succeeds |
| Commands.SelectRows | src/lib.rs:336-362 | once the table is found, the same: the tables stay, no panic, the history write exactly on success |
| Commands.SelectsAllRows | src/lib.rs:338-351 | the definition: the column list holds `*` and the query has exactly four words, or the query holds no `where` at all |
| Commands.GetCommand | src/lib.rs:367-437 | never changes the tables, and reaches the history write only with a successful answer |
| Commands.Length | src/lib.rs:415-432 | never changes the tables or panics; a success is one datum, and exactly a success reaches the history write |
| Commands.Extreme | src/lib.rs:370-414 | never changes the tables; reaches the history write exactly when it succeeds; panics only once the table is found, for a column index past its columns |
| Commands.UnknownVerb | src/lib.rs:438-441 | a first word other than the five verbs is the generic syntax error, with the tables unchanged and no history row |
| Commands.UnknownSubVerb | src/lib.rs:167-436 | an unknown word after `new` or `delete` is the generic syntax error; after `get`, an error naming the word; the tables stay unchanged |
| Commands.NewNeedsWith | src/lib.rs:167-210 | `new table` or `new column` without `with` in its fourth word fails before anything changes |
| Commands.NewTableAppends | src/lib.rs:172-191 | `new table` with valid specs (and, in lib.rs, a new name) appends exactly the one table built from the specs, succeeds, and reaches the history write |
| Commands.NewTableExisting | src/lib.rs:172-191 | in lib.rs, `new table` naming an existing table succeeds, changes nothing and writes no history row |
| Commands.DeleteTableByName | src/lib.rs:232-248 | `delete table with <name>` removes the first table of that name; without `with`, or with no such table, it fails and changes nothing |
| Commands.DeleteFailuresAreSyntaxErrors | src/lib.rs:232-298 | `delete table` and `delete column` never panic and, when they fail, answer the generic syntax error without a history row, a failed `delete table` leaving the tables alone; in `delete data`, an error from the table's `delete_data` is the generic syntax error too, with the table as the deletion left it and no history row |
| Commands.DeleteKeywords | src/lib.rs:249-298 | `delete column` without `with` in its third word or `in` in its fifth, and `delete data` without `in` in its third word, with no such table, or without `where` in its fifth word, fail before anything changes: the generic syntax error, or the not-found error for the table |
| Commands.UpdateKeywords | src/lib.rs:302-328 | `update` without `where`, or without `with` after the conditions, fails with an error naming the `where` word and changes nothing |
| Commands.SelectNeedsFrom | src/lib.rs:329-366 | a column list that is neither `*` nor parenthesised fails with its own error, and a third word without `from` fails naming the text after it; the tables stay |
| Commands.SelectNeedsWhere | src/lib.rs:352-362 | with the column list, `from` and the table in place, a fifth word without `where` fails naming the text after it, the tables unchanged: always in main.rs (main.rs:268-275), in lib.rs unless the query reads every row |
| Commands.LegacySelectNeedsWhere | src/main.rs:259-279 | in main.rs, a `select` with no `where` anywhere after the verb fails at one of its checks (column list, `from`, table, or the fifth-word rule of `SelectNeedsWhere`), changes nothing and writes no row |
| Commands.WhereWordInside | src/main.rs:259-279 | the word checked for `where` lies inside the text after the verb |
| Commands.LegacySelectCommandNeedsWhere | src/main.rs:259-279 | for a whole query: in main.rs a `select` without `where` anywhere fails and changes nothing |
| Commands.SelectWithoutWhere | src/lib.rs:338-352 | in lib.rs, a `select` with no `where`, `from` in place and an existing table selects the listed columns of every row, unchanged tables, with the history written |
| Commands.GetKeywords | src/lib.rs:367-437 | `get len` without `of` in its third word, and `get min` or `get max` without `in` in its third word or `from` in its fifth, fail naming that word, the tables unchanged |
| Runner.RemoveTable | src/lib.rs:549-552 | the method returns exactly `DeleteTableSpec` |
| Runner.RemoveColumn | src/lib.rs:553-561 | the method returns exactly `DeleteColumnSpec` |
| Runner.RunCommand | src/lib.rs:159-443 | dispatching on the first word has exactly the effect `Command` states |
| Runner.RunNew | src/lib.rs:167-228 | exactly `NewCommand` |
| Runner.RunNewTable | src/lib.rs:172-191 | exactly `NewTable`, including the panic of `unwrap` on a bad column list |
| Runner.RunNewColumns | src/lib.rs:192-210 | exactly `NewColumns` |
| Runner.RunNewRows | src/lib.rs:211-225 | exactly `NewRows` |
| Runner.RunDelete | src/lib.rs:229-301 | exactly `DeleteCommand` |
| Runner.RunDropTable | src/lib.rs:232-248 | exactly `DropTable` |
| Runner.RunDropColumn | src/lib.rs:249-272 | exactly `DropColumn` |
| Runner.RunDropRows | src/lib.rs:273-298 | exactly `DropRows` |
| Runner.RunUpdate | src/lib.rs:302-328 | exactly `UpdateCommand` |
| Runner.RunUpdateRows | src/lib.rs:305-322 | exactly `UpdateRows` |
| Runner.RunSelect | src/lib.rs:329-366 | exactly `SelectCommand` of the given revision |
| Runner.RunSelectRows | src/lib.rs:336-362 | exactly `SelectRows`: all rows in lib.rs when the query asks for them, otherwise the rows the `where` conditions select |
| Runner.RunGet | src/lib.rs:367-437 | exactly `GetCommand` |
| Runner.RunLength | src/lib.rs:415-432 | exactly `Length` |
| Runner.RunExtreme | src/lib.rs:370-414 | exactly `Extreme`, for `min` and for `max` |
| Engine.DefaultDb | src/lib.rs:37-46 | a new engine has no tables, the history off with no index, and a non-empty split pattern |
| Engine.History | src/lib.rs:444-453 | the history write changes only the history table; no index panics, an index past the end panics, a failed write returns its error; otherwise the command's own answer |
| Engine.Exec | src/lib.rs:159-453 | the history write after the command changes only the history table and keeps the table count; with the switch off, or for a command that returns before the write, `execute` is the command alone |
| Engine.SetJobHistorySpec | src/lib.rs:99-114 | the switch is set and the pattern kept; turning it off changes nothing else; turning it on uses the first `job_history` table or appends one at the end, and the index then points into the tables |
| Engine.SetJobHistoryIdempotent | src/lib.rs:99-114 | turning the history on twice is the same as once, given that the table built is called `job_history` |
| Engine.ExistingTableWritesNoHistory | src/lib.rs:172-191 | whatever the switch, `new table` on an existing name leaves the tables, succeeds, and writes no history row |
| Engine.HistoryAfterChange | src/lib.rs:444-453 | with the switch on, the row is written after the command's change: every other table is as the command left it, and a failed write is returned as the answer although the change stays |
| Engine.Neith.constructor | src/lib.rs:37-46 | the new object is in the default state |
| Engine.Neith.SetJobHistory | src/lib.rs:99-114 | the new state is `SetJobHistorySpec` of the old, and the answer echoes the value |
| Engine.Neith.DeleteTable | src/lib.rs:549-552 | the tables and answer are `DeleteTableSpec`; the switch, the history index and the pattern stay |
| Engine.Neith.DeleteColumn | src/lib.rs:553-561 | the tables and answer are `DeleteColumnSpec`; the other fields stay |
| Engine.Neith.WriteHistory | src/lib.rs:444-453 | the tables and answer are `History` of the old tables; the other fields stay |
| Engine.Neith.Execute | src/lib.rs:159-443 | the tables and answer are `Exec` of the old state; the switch, the index and the pattern stay |
| LegacyEngine.LegacyNewTableAppends | src/main.rs:128-139 | main.rs appends a table on every valid `new table`, also when the name is taken |
| LegacyEngine.LegacyNeith.constructor | src/main.rs:34-42 | a new engine has no tables and the history off |
| LegacyEngine.LegacyNeith.SetJobHistory | src/main.rs:86-89 | only the switch changes, and the answer echoes the value |
| LegacyEngine.LegacyNeith.DeleteTable | src/main.rs:427-431 | the tables and answer are `DeleteTableSpec` |
| LegacyEngine.LegacyNeith.DeleteColumn | src/main.rs:432-440 | the tables and answer are `DeleteColumnSpec` |
| LegacyEngine.LegacyNeith.Execute | src/main.rs:119-347 | the tables and outcome are those of the `Legacy` command with the `,+` pattern; the switch stays |

## Left out

- File persistence is outside the model: `from`, `new`, `connect`, `connect_ram_mode`, `save`, the `path` and `ram_mode` fields, `canonize_path`, `check_for_persistant_db`, and the json module. The model starts from `Neith::default()`.
- `set_marker` is not modelled. It is the only way to change the split pattern, and `Neith.Valid` keeps that pattern non-empty. An empty pattern would make `split` behave differently.
- The clocks are parameters: `Instant::now()` and `chrono::Utc::now()` in `execute` become a `Clock` value with the date text and the elapsed microseconds.
- The bodies of the `Table`, `Column` and `Data` operations are not modelled; the model takes them as parameters (`TableApi`, `DataApi`). `f64` is an opaque type with equality only.
- `println!` and `main()` have no effect on the state and are not modelled.
- Error messages are not modelled as text: each error is an `Error` value carrying the text its message interpolates.
- `decode_list_columndata` and `decode_single_columndata` never return `Err`, so the model gives their value directly. `unwrap` and `?` on them cannot fail.
- Engine.Neith.SetJobHistory: lib.rs calls `exists_table` twice. The model asks once: nothing changes in between, so the answer is the same.
- The table reads `select_data`, `len`, `select_all_rows`, `search_for_column`, `min` and `max` are assumed not to change the table: their bodies are not part of this model, and lib.rs calls `select_data` on the stored table without a clone (lib.rs:347) and `min`/`max` on the stored column (lib.rs:380, 403).
- Table-level `&mut self` operations are modelled as returning the new table value, and the engine stores it back. Aliasing between tables is not modelled.
- Util.EncodedConditions: its contract does not state what a text that is neither a pair nor an operator encodes to. The lemmas `EncodeOperator`, `EncodePair` and `EncodePairData` cover the two forms the decoder produces: an operator word with default data, and a pair with its name and its `Data::from` value.
