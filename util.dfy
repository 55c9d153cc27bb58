/**
 * The text decoders of the NQL pipeline (src/utils/util.rs): peeling the
 * leading word, the `[...]` condition list and the `(...)`/`*` column list
 * off a command, and turning clause text into column specs, `name = value`
 * fields and condition terms. The field and condition decoders take the
 * separator as a parameter; the engine passes its split pattern, `",+"`
 * unless changed.
 */
module Util {
  import opened Rust
  import opened Values
  import opened Tables

  // ----- peeling words and clauses -----

  /** `strip_leading_word`: the text before the first space and the text after it. */
  function StripLeadingWord(s: string): (r: (string, string))
    ensures ' ' in s ==> r.0 + " " + r.1 == s && ' ' !in r.0
    ensures ' ' !in s ==> r.0 == s && r.1 == ""
  {
    SplitNTwoChar(s, ' ');
    var parts := SplitN(s, " ", 2);
    ConcatAtMostOne(parts[1..]);
    (parts[0], Concat(parts[1..]))
  }

  /** A word followed by a space is exactly what `strip_leading_word` peels off. */
  lemma LeadingWordOf(w: string, rest: string)
    requires ' ' !in w
    ensures StripLeadingWord(w + " " + rest) == (w, rest)
  {
    var s := w + " " + rest;
    assert s[|w|] == ' ';
    var r := StripLeadingWord(s);
    FirstSpaceUnique(r.0, r.1, w, rest);
  }

  lemma FirstSpaceUnique(a: string, b: string, w: string, rest: string)
    requires ' ' !in a && ' ' !in w && a + " " + b == w + " " + rest
    ensures a == w && b == rest
  {
    var s := a + " " + b;
    assert forall k :: 0 <= k < |a| ==> s[k] == a[k];
    assert forall k :: 0 <= k < |w| ==> s[k] == w[k];
    assert |a| == |w| by {
      assert s[|a|] == ' ' && s[|w|] == ' ';
    }
    assert a == s[..|a|] && w == s[..|w|];
    assert b == s[|a| + 1..] && rest == s[|w| + 1..];
  }

  /** The command text `w0 w1 ... tail`: the words, each followed by one space, then the tail. */
  function Sentence(ws: seq<string>, tail: string): string
  {
    if ws == [] then tail else ws[0] + " " + Sentence(ws[1..], tail)
  }

  /** `strip_leading_word` takes the words of a sentence off one at a time. */
  lemma StripSentence(ws: seq<string>, tail: string)
    requires |ws| > 0 && forall i :: 0 <= i < |ws| ==> ' ' !in ws[i]
    ensures StripLeadingWord(Sentence(ws, tail)) == (ws[0], Sentence(ws[1..], tail))
  {
    LeadingWordOf(ws[0], Sentence(ws[1..], tail));
  }

  /** Every word and the tail of what `strip_leading_word` returns is part of its input. */
  lemma LeadingWordInside(s: string, pat: string)
    ensures Contains(StripLeadingWord(s).0, pat) ==> Contains(s, pat)
    ensures Contains(StripLeadingWord(s).1, pat) ==> Contains(s, pat)
  {
    var r := StripLeadingWord(s);
    if ' ' in s {
      assert r.0 + (" " + r.1) == s;
      ContainsInside(r.0, " " + r.1, pat);
      ContainsInside(r.0 + " ", r.1, pat);
    }
  }

  /** A pattern found in either half of `a + b` is found in `a + b`. */
  lemma ContainsInside(a: string, b: string, pat: string)
    ensures Contains(a, pat) ==> Contains(a + b, pat)
    ensures Contains(b, pat) ==> Contains(a + b, pat)
  {
    ContainsIff(a, pat);
    ContainsIff(b, pat);
    ContainsIff(a + b, pat);
    if Contains(a, pat) {
      var j: nat :| MatchAt(a, pat, j);
      assert (a + b)[j..j + |pat|] == a[j..j + |pat|];
      assert MatchAt(a + b, pat, j);
    }
    if Contains(b, pat) {
      var j: nat :| MatchAt(b, pat, j);
      assert (a + b)[|a| + j..|a| + j + |pat|] == b[j..j + |pat|];
      assert MatchAt(a + b, pat, |a| + j);
    }
  }

  /**
   * `splitn(2, c)`, with `c` put back on the first piece and leading
   * whitespace trimmed off the second: the shared shape of
   * `strip_condition_list` and the `(` branch of `strip_column_list`.
   */
  function CutAfter(s: string, c: char): (r: (string, string))
    ensures c in s ==> 0 < |r.0| <= |s| && r.0 == s[..|r.0|] && r.1 == TrimStart(s[|r.0|..])
    ensures c in s ==> r.0[|r.0| - 1] == c && c !in r.0[..|r.0| - 1]
    ensures c !in s ==> r.0 == s + [c] && r.1 == ""
  {
    SplitNTwoChar(s, c);
    var parts := SplitN(s, [c], 2);
    ConcatAtMostOne(parts[1..]);
    (parts[0] + [c], TrimStart(Concat(parts[1..])))
  }

  /** `strip_condition_list`: the `[...]` list up to its first `]`, and what follows. */
  function StripConditionList(s: string): (r: (string, string))
    ensures |r.0| > 0 && r.0[|r.0| - 1] == ']' && ']' !in r.0[..|r.0| - 1]
    ensures r.1 == [] || !IsWhitespace(r.1[0])
    ensures ']' in s ==> |r.0| <= |s| && r.0 == s[..|r.0|] && r.1 == TrimStart(s[|r.0|..])
    ensures ']' !in s ==> r.0 == s + "]" && r.1 == ""
  {
    var r := CutAfter(s, ']');
    if ']' in s then r
    else
      assert r.0[..|r.0| - 1] == s;
      r
  }

  /** `strip_column_list`: a leading `*` word or a `(...)` list, and what follows. */
  function StripColumnList(s: string): (r: Result<(string, string)>)
    ensures r.Err? <==> !StartsWith(s, "*") && !StartsWith(s, "(")
    ensures r.Err? ==> r.error == NotAColumnList(s)
    ensures StartsWith(s, "*") && ' ' in s ==> r.value.0 + " " + r.value.1 == s && ' ' !in r.value.0
    ensures StartsWith(s, "*") && ' ' !in s ==> r.value == (s, "")
    ensures !StartsWith(s, "*") && StartsWith(s, "(") && ')' in s ==>
      var (list, rest) := r.value;
      0 < |list| <= |s| && list == s[..|list|] && list[|list| - 1] == ')' && ')' !in list[..|list| - 1]
      && rest == TrimStart(s[|list|..])
    ensures !StartsWith(s, "*") && StartsWith(s, "(") && ')' !in s ==> r.value == (s + ")", "")
  {
    if StartsWith(s, "*") then Ok(StripLeadingWord(s))
    else if StartsWith(s, "(") then Ok(CutAfter(s, ')'))
    else Err(NotAColumnList(s))
  }

  /** What follows the column list is part of the input. */
  lemma ColumnListInside(s: string, pat: string)
    requires StripColumnList(s).Ok?
    ensures Contains(StripColumnList(s).value.1, pat) ==> Contains(s, pat)
  {
    if StartsWith(s, "*") {
      LeadingWordInside(s, pat);
    } else if ')' in s {
      var (list, rest) := StripColumnList(s).value;
      var tail := s[|list|..];
      TrimStartSuffix(tail);
      SuffixInside(tail, rest, pat);
      SuffixInside(s, tail, pat);
    }
  }

  /** Anything a suffix contains, the whole text contains. */
  lemma SuffixInside(t: string, suffix: string, pat: string)
    requires |suffix| <= |t| && suffix == t[|t| - |suffix|..]
    ensures Contains(suffix, pat) ==> Contains(t, pat)
  {
    assert t == t[..|t| - |suffix|] + suffix;
    ContainsInside(t[..|t| - |suffix|], suffix, pat);
  }

  // ----- column lists -----

  /** The text with every `(` and `)` removed. */
  function Unparen(s: string): (r: string)
    ensures forall x :: x in r <==> x in s && x != '(' && x != ')'
  {
    ReplaceRemoves(s, '(');
    ReplaceRemoves(Replace(s, '(', ""), ')');
    Replace(Replace(s, '(', ""), ')', "")
  }

  /** The comma-separated pieces of a parenthesised list. */
  function ListPieces(s: string): seq<string>
  {
    Split(Unparen(s), ",")
  }

  function ColumnNames(cs: seq<Column>): (r: seq<string>)
    ensures |r| == |cs| && forall i :: 0 <= i < |cs| ==> r[i] == cs[i].name
  {
    if cs == [] then [] else [cs[0].name] + ColumnNames(cs[1..])
  }

  function TrimAll(ps: seq<string>): (r: seq<string>)
    ensures |r| == |ps| && forall i :: 0 <= i < |ps| ==> r[i] == Trim(ps[i])
  {
    if ps == [] then [] else [Trim(ps[0])] + TrimAll(ps[1..])
  }

  /** The column names a `select` asks for (`decode_column_list`). */
  function SelectedColumns(input: string, t: Table): (r: seq<string>)
    ensures Contains(input, "*") ==> |r| == |t.columns| && forall i :: 0 <= i < |r| ==> r[i] == t.columns[i].name
    ensures !Contains(input, "*") ==>
      var ps := ListPieces(input);
      |r| == |ps| && forall i :: 0 <= i < |r| ==> r[i] == Trim(ps[i])
  {
    if Contains(input, "*") then ColumnNames(t.columns) else TrimAll(ListPieces(input))
  }

  /** `decode_column_list`. */
  method DecodeColumnList(input: string, t: Table) returns (out: seq<string>)
    ensures out == SelectedColumns(input, t)
  {
    out := [];
    if Contains(input, "*") {
      for i := 0 to |t.columns|
        invariant |out| == i && forall k :: 0 <= k < i ==> out[k] == t.columns[k].name
      {
        out := out + [t.columns[i].name];
      }
      assert out == ColumnNames(t.columns);
    } else {
      var names := ListPieces(input);
      for i := 0 to |names|
        invariant |out| == i && forall k :: 0 <= k < i ==> out[k] == Trim(names[k])
      {
        out := out + [Trim(names[i])];
      }
      assert out == TrimAll(names);
    }
  }

  // ----- column specs: `(name bool, ...)` -----

  /** One `name bool` piece of a column maker. */
  function ParseColumnSpec(piece: string): Result<ColumnSpec>
  {
    var ts := SplitWhitespace(piece);
    if |ts| != 2 then Err(WrongColumnArity(piece))
    else match ParseBool(ts[1])
      case None => Err(NotABool(ts[1]))
      case Some(b) => Ok((ts[0], b))
  }

  /** The column specs of a column maker, or the error of its first bad piece. */
  function ColumnSpecs(input: string): (r: Result<seq<ColumnSpec>>)
    ensures var ps := ListPieces(input);
      && (r.Ok? <==> forall i :: 0 <= i < |ps| ==> ParseColumnSpec(ps[i]).Ok?)
      && (r.Ok? ==> |r.value| == |ps| && forall i :: 0 <= i < |ps| ==> ParseColumnSpec(ps[i]) == Ok(r.value[i]))
      && (r.Err? ==> exists i :: 0 <= i < |ps| && ParseColumnSpec(ps[i]) == Err(r.error)
                        && forall j :: 0 <= j < i ==> ParseColumnSpec(ps[j]).Ok?)
  {
    AllOk(ParseColumnSpec, ListPieces(input))
  }

  /** `decode_columnmaker`. */
  method DecodeColumnMaker(input: string) returns (r: Result<seq<ColumnSpec>>)
    ensures r == ColumnSpecs(input)
    ensures var ps := ListPieces(input);
      && (r.Ok? <==> forall i :: 0 <= i < |ps| ==> ParseColumnSpec(ps[i]).Ok?)
      && (r.Ok? ==> |r.value| == |ps| && forall i :: 0 <= i < |ps| ==> ParseColumnSpec(ps[i]) == Ok(r.value[i]))
  {
    var pieces := ListPieces(input);
    var specs: seq<ColumnSpec> := [];
    for i := 0 to |pieces|
      invariant |specs| == i && forall k :: 0 <= k < i ==> ParseColumnSpec(pieces[k]) == Ok(specs[k])
    {
      var words := SplitWhitespace(pieces[i]);
      if |words| != 2 {
        AllOkFirstErr(ParseColumnSpec, pieces, i);
        return Err(WrongColumnArity(pieces[i]));
      }
      var unique := ParseBool(words[1]);
      if unique.None? {
        AllOkFirstErr(ParseColumnSpec, pieces, i);
        return Err(NotABool(words[1]));
      }
      specs := specs + [(words[0], unique.value)];
    }
    AllOkAll(ParseColumnSpec, pieces, specs);
    r := Ok(specs);
  }

  /** How a column spec is written in a `new table ... with (...)` command. */
  function SpecText(c: ColumnSpec): string
  {
    c.0 + " " + (if c.1 then "true" else "false")
  }

  function SpecTexts(cs: seq<ColumnSpec>): (r: seq<string>)
    ensures |r| == |cs| && forall i :: 0 <= i < |cs| ==> r[i] == SpecText(cs[i])
  {
    if cs == [] then [] else [SpecText(cs[0])] + SpecTexts(cs[1..])
  }

  /** A column name as a column maker can carry it. */
  predicate PlainName(n: string)
  {
    IsWord(n) && '(' !in n && ')' !in n && ',' !in n
  }

  lemma ParseSpecText(c: ColumnSpec)
    requires IsWord(c.0)
    ensures ParseColumnSpec(SpecText(c)) == Ok(c)
  {
    var b := if c.1 then "true" else "false";
    assert IsWord(b);
    SplitWhitespaceWord(c.0);
    SplitWhitespaceWord(b);
    SplitWhitespaceAppend(c.0, ' ', b);
    assert SpecText(c) == c.0 + [' '] + b;
    assert SplitWhitespace(SpecText(c)) == [c.0, b];
  }

  /** Column specs written out as `(n1 b1,n2 b2,...)` decode back to themselves. */
  lemma ColumnSpecsRoundTrip(cs: seq<ColumnSpec>)
    requires |cs| >= 1 && forall i :: 0 <= i < |cs| ==> PlainName(cs[i].0)
    ensures ColumnSpecs("(" + Join(SpecTexts(cs), ",") + ")") == Ok(cs)
  {
    var texts := SpecTexts(cs);
    forall i | 0 <= i < |texts|
      ensures ',' !in texts[i] && '(' !in texts[i] && ')' !in texts[i]
    {
      SpecTextAvoids(cs[i]);
    }
    var body := Join(texts, ",");
    JoinAvoids(texts, ",", '(');
    JoinAvoids(texts, ",", ')');
    UnparenWrapped(body);
    SplitJoinChar(texts, ',');
    forall i | 0 <= i < |texts| ensures ParseColumnSpec(texts[i]) == Ok(cs[i]) {
      ParseSpecText(cs[i]);
    }
    AllOkAll(ParseColumnSpec, texts, cs);
  }

  lemma SpecTextAvoids(c: ColumnSpec)
    requires PlainName(c.0)
    ensures ',' !in SpecText(c) && '(' !in SpecText(c) && ')' !in SpecText(c)
  {
    var b := if c.1 then "true" else "false";
    assert ',' !in b && '(' !in b && ')' !in b;
    assert SpecText(c) == c.0 + " " + b;
  }

  lemma UnparenWrapped(body: string)
    requires '(' !in body && ')' !in body
    ensures Unparen("(" + body + ")") == body
  {
    var x := "(" + body + ")";
    assert x == "(" + (body + ")");
    assert Replace("(", '(', "") == "";
    assert Replace(")", '(', "") == ")";
    assert Replace(")", ')', "") == "";
    ReplaceAppend("(", body + ")", '(', "");
    ReplaceAppend(body, ")", '(', "");
    ReplaceAbsent(body, '(', "");
    var y := Replace(x, '(', "");
    assert y == body + ")";
    ReplaceAppend(body, ")", ')', "");
    ReplaceAbsent(body, ')', "");
    assert Replace(y, ')', "") == body;
  }

  /** Joining pieces that avoid `c` with a separator that avoids `c` avoids `c`. */
  lemma JoinAvoids(xs: seq<string>, sep: string, c: char)
    requires c !in sep && forall i :: 0 <= i < |xs| ==> c !in xs[i]
    ensures c !in Join(xs, sep)
  {
    if |xs| > 1 {
      JoinAvoids(xs[1..], sep, c);
    }
  }

  // ----- fields: `name = value` -----

  /** `decode_single_columndata`: never fails. */
  function DecodeSingleColumnData(v: string, dapi: DataApi): (r: Field)
  {
    var noEquals := Replace(v, '=', "");
    var cleaned := if ']' in noEquals then Replace(noEquals, ']', "") else noEquals;
    var words := SplitWhitespace(cleaned);
    if words == [] then ("", dapi.fromString(""))
    else (words[0], dapi.fromString(Join(words[1..], " ")))
  }

  /** A value as a field can carry it: whitespace-free words without `=` or `]`. */
  predicate PlainWord(w: string)
  {
    IsWord(w) && '=' !in w && ']' !in w
  }

  /** `name = w1 w2 ...` decodes to the name and the words joined by single spaces. */
  lemma DecodeSingleRoundTrip(name: string, words: seq<string>, dapi: DataApi)
    requires PlainWord(name) && forall i :: 0 <= i < |words| ==> PlainWord(words[i])
    ensures DecodeSingleColumnData(name + " = " + Join(words, " "), dapi)
         == (name, dapi.fromString(Join(words, " ")))
  {
    var value := Join(words, " ");
    JoinAvoids(words, " ", '=');
    JoinAvoids(words, " ", ']');
    RemoveEquals(name, value);
    var noEquals := name + "  " + value;
    assert ']' !in "  ";
    ContainsChar(noEquals, ']');
    SplitAfterName(name, value);
    SplitWhitespaceJoin(words);
    var ws := SplitWhitespace(noEquals);
    assert ws == [name] + words;
    assert ws[1..] == words;
  }

  lemma RemoveEquals(name: string, value: string)
    requires '=' !in name && '=' !in value
    ensures Replace(name + " = " + value, '=', "") == name + "  " + value
  {
    assert name + " = " + value == name + (" = " + value);
    ReplaceAppend(name, " = " + value, '=', "");
    ReplaceAppend(" = ", value, '=', "");
    assert Replace(" = ", '=', "") == "  ";
    ReplaceAbsent(name, '=', "");
    ReplaceAbsent(value, '=', "");
  }

  lemma SplitAfterName(name: string, value: string)
    requires IsWord(name)
    ensures SplitWhitespace(name + "  " + value) == [name] + SplitWhitespace(value)
  {
    assert name + "  " + value == name + [' '] + ([' '] + value);
    SplitWhitespaceAppend(name, ' ', [' '] + value);
    assert [' '] + value == [] + [' '] + value;
    SplitWhitespaceAppend([], ' ', value);
    SplitWhitespaceWord(name);
  }


  /** Whatever follows ` = `, the field is named by the word before it. */
  lemma DecodeSingleName(name: string, rest: string, dapi: DataApi)
    requires PlainWord(name)
    ensures DecodeSingleColumnData(name + " = " + rest, dapi).0 == name
  {
    var noEquals := Replace(name + " = " + rest, '=', "");
    var r1 := Replace(rest, '=', "");
    SpacedLiterals();
    ReplaceAfterName(name, " = ", rest, '=', "  ");
    var x := if ']' in noEquals then Replace(r1, ']', "") else r1;
    if ']' in noEquals {
      ReplaceAfterName(name, "  ", r1, ']', "  ");
    }
    DecodeNameFrom(name + " = " + rest, name, x, dapi);
  }

  lemma DecodeNameFrom(v: string, name: string, x: string, dapi: DataApi)
    requires IsWord(name)
    requires var noEquals := Replace(v, '=', "");
      (if ']' in noEquals then Replace(noEquals, ']', "") else noEquals) == name + ("  " + x)
    ensures DecodeSingleColumnData(v, dapi).0 == name
  {
    NameBeforeSpaces(name, x);
  }

  lemma SpacedLiterals()
    ensures Replace(" = ", '=', "") == "  " && Replace("  ", ']', "") == "  "
  {
  }

  lemma NameBeforeSpaces(name: string, x: string)
    requires IsWord(name)
    ensures var ws := SplitWhitespace(name + ("  " + x)); ws != [] && ws[0] == name
  {
    Assoc(name, "  ", x);
    SplitAfterName(name, x);
  }

  /**
   * Removing `c` from `name + mid + rest`, where `name` has no `c` and `mid`
   * becomes `mid'`, leaves `name`, then `mid'`, then `rest` without `c`.
   */
  lemma ReplaceAfterName(name: string, mid: string, rest: string, c: char, mid': string)
    requires c !in name && Replace(mid, c, "") == mid'
    ensures Replace(name + (mid + rest), c, "") == name + (mid' + Replace(rest, c, ""))
    ensures Replace(name + mid + rest, c, "") == name + (mid' + Replace(rest, c, ""))
  {
    assert name + mid + rest == name + (mid + rest);
    ReplaceAppend(mid, rest, c, "");
    ReplaceAppend(name, mid + rest, c, "");
    ReplaceAbsent(name, c, "");
  }

  /** The field list once its outer parentheses are dropped (util.rs:90-95). */
  function CleanFieldList(s: string): string
  {
    var noOpen := ReplaceFirst(s, "(", "");
    if EndsWith(noOpen, "))") then ReplaceFirst(noOpen, "))", ")") else TrimEndMatches(noOpen, ')')
  }

  /** The loop state of `decode_list_columndata`: `out`, `list_store`, `list_check`. */
  datatype FieldScan = FieldScan(out: seq<Field>, store: string, inList: bool)

  /** One iteration of the loop of `decode_list_columndata`. */
  function ScanStep(st: FieldScan, entry: string, decode: string -> Field): (r: FieldScan)
    ensures |st.out| <= |r.out| <= |st.out| + 1 && r.out[..|st.out|] == st.out
    ensures r.inList ==> ')' !in entry && r.out == st.out
    ensures !st.inList && '(' !in entry ==> r == FieldScan(st.out + [decode(entry)], st.store, false)
  {
    var inList := st.inList || '(' in entry;
    if inList then
      var store := st.store + entry;
      if ')' in entry then FieldScan(st.out + [decode(store)], store + ",", false)
      else FieldScan(st.out, store + ",", true)
    else FieldScan(st.out + [decode(entry)], st.store, false)
  }

  /** The loop state reached from `st` after the given entries. */
  function ScanFrom(st: FieldScan, entries: seq<string>, decode: string -> Field): FieldScan
    decreases |entries|
  {
    if entries == [] then st else ScanFrom(ScanStep(st, entries[0], decode), entries[1..], decode)
  }

  /** The scan keeps the fields it started with and adds at most one per entry. */
  lemma {:induction false} ScanOutGrows(st: FieldScan, entries: seq<string>, decode: string -> Field)
    ensures var r := ScanFrom(st, entries, decode);
      |st.out| <= |r.out| <= |st.out| + |entries| && r.out[..|st.out|] == st.out
    decreases |entries|
  {
    if entries != [] {
      var next := ScanStep(st, entries[0], decode);
      ScanOutGrows(next, entries[1..], decode);
      var r := ScanFrom(st, entries, decode);
      assert r.out[..|st.out|] == r.out[..|next.out|][..|st.out|];
    }
  }

  /** The state the loop of `decode_list_columndata` starts in. */
  const ScanStart := FieldScan([], "", false)

  /** The fields a `(name = value<sep> ...)` list decodes to (`decode_list_columndata`). */
  function ColumnData(listVal: string, sep: string, dapi: DataApi): (r: seq<Field>)
    requires |sep| > 0
    ensures |r| <= |Split(CleanFieldList(listVal), sep)|
  {
    ScanOutGrows(ScanStart, Split(CleanFieldList(listVal), sep), v => DecodeSingleColumnData(v, dapi));
    ScanFrom(ScanStart, Split(CleanFieldList(listVal), sep), v => DecodeSingleColumnData(v, dapi)).out
  }

  /** `decode_list_columndata`: it never fails, so it returns the fields themselves. */
  method DecodeListColumnData(listVal: string, sep: string, dapi: DataApi) returns (out: seq<Field>)
    requires |sep| > 0
    ensures out == ColumnData(listVal, sep, dapi)
  {
    var entries := Split(CleanFieldList(listVal), sep);
    ghost var decoder := v => DecodeSingleColumnData(v, dapi);
    out := [];
    var listStore := "";
    var listCheck := false;
    for i := 0 to |entries|
      invariant ScanFrom(FieldScan(out, listStore, listCheck), entries[i..], decoder)
             == ScanFrom(ScanStart, entries, decoder)
    {
      var entry := entries[i];
      ghost var st := FieldScan(out, listStore, listCheck);
      assert entries[i..][1..] == entries[i + 1..];
      assert ScanFrom(st, entries[i..], decoder) == ScanFrom(ScanStep(st, entry, decoder), entries[i + 1..], decoder);
      if '(' in entry {
        listCheck := true;
      }
      if listCheck {
        listStore := listStore + entry;
        if ')' in entry {
          listCheck := false;
          out := out + [DecodeSingleColumnData(listStore, dapi)];
        }
        listStore := listStore + ",";
      } else {
        out := out + [DecodeSingleColumnData(entry, dapi)];
      }
      assert FieldScan(out, listStore, listCheck) == ScanStep(st, entry, decoder);
    }
  }

  /** Scanning `a + b` is scanning `a` and then `b`. */
  lemma {:induction false} ScanFromAppend(st: FieldScan, a: seq<string>, b: seq<string>, decode: string -> Field)
    ensures ScanFrom(st, a + b, decode) == ScanFrom(ScanFrom(st, a, decode), b, decode)
    decreases |a|
  {
    if a == [] {
      assert a + b == b;
    } else {
      assert (a + b)[0] == a[0] && (a + b)[1..] == a[1..] + b;
      ScanFromAppend(ScanStep(st, a[0], decode), a[1..], b, decode);
    }
  }

  /** Outside any parenthesis every entry gives exactly one field, in order. */
  lemma {:induction false} ScanPlain(st: FieldScan, entries: seq<string>, decode: string -> Field)
    requires !st.inList
    requires forall i :: 0 <= i < |entries| ==> '(' !in entries[i]
    ensures var r := ScanFrom(st, entries, decode);
      && !r.inList && r.store == st.store
      && |r.out| == |st.out| + |entries|
      && r.out[..|st.out|] == st.out
      && forall i :: 0 <= i < |entries| ==> r.out[|st.out| + i] == decode(entries[i])
    decreases |entries|
  {
    if entries != [] {
      var next := ScanStep(st, entries[0], decode);
      assert next.out == st.out + [decode(entries[0])];
      ScanPlain(next, entries[1..], decode);
      var r := ScanFrom(st, entries, decode);
      assert r.out[..|next.out|] == next.out;
      assert r.out[..|st.out|] == next.out[..|st.out|];
      forall i | 0 <= i < |entries|
        ensures r.out[|st.out| + i] == decode(entries[i])
      {
        if i == 0 {
          assert r.out[|st.out|] == next.out[|st.out|];
        } else {
          assert entries[i] == entries[1..][i - 1];
        }
      }
    }
  }

  /** From an entry holding `(` on, entries pile up in `list_store` until one holds `)`. */
  lemma {:induction false} ScanOpenList(st: FieldScan, entries: seq<string>, decode: string -> Field)
    requires entries != [] && (st.inList || '(' in entries[0])
    requires forall i :: 0 <= i < |entries| ==> ')' !in entries[i]
    ensures ScanFrom(st, entries, decode) == FieldScan(st.out, st.store + Join(entries, ",") + ",", true)
    decreases |entries|
  {
    var next := ScanStep(st, entries[0], decode);
    assert next == FieldScan(st.out, st.store + entries[0] + ",", true);
    if |entries| > 1 {
      ScanOpenList(next, entries[1..], decode);
      assert Join(entries, ",") == entries[0] + "," + Join(entries[1..], ",");
    }
  }

  /**
   * The entries from the one holding `(` to the one holding `)` are merged,
   * joined with `","`, into one field; `list_store` keeps what it held before
   * the list, because nothing resets it.
   */
  lemma ScanCloseList(st: FieldScan, open: seq<string>, close: string, decode: string -> Field)
    requires st.inList || '(' in (open + [close])[0]
    requires forall i :: 0 <= i < |open| ==> ')' !in open[i]
    requires ')' in close
    ensures var merged := st.store + Join(open + [close], ",");
      ScanFrom(st, open + [close], decode)
        == FieldScan(st.out + [decode(merged)], merged + ",", false)
  {
    if open == [] {
      assert open + [close] == [close];
      ScanCloseNow(st, close, decode);
    } else {
      assert (open + [close])[0] == open[0];
      var before := FieldScan(st.out, st.store + Join(open, ",") + ",", true);
      var merged := st.store + Join(open + [close], ",");
      assert ScanFrom(st, open, decode) == before by {
        ScanOpenList(st, open, decode);
      }
      assert ScanFrom(before, [close], decode) == FieldScan(st.out + [decode(merged)], merged + ",", false) by {
        ScanCloseNow(before, close, decode);
        JoinSnoc(open, close, ",");
        AppendAssoc(st.store, Join(open, ","), ",", close);
      }
      ScanFromAppend(st, open, [close], decode);
    }
  }

  lemma Assoc(a: string, b: string, c: string)
    ensures a + b + c == a + (b + c)
  {
  }

  lemma AppendAssoc(a: string, b: string, c: string, d: string)
    ensures a + b + c + d == a + (b + c + d)
  {
  }

  /** The entry holding `)` closes the list that is open. */
  lemma ScanCloseNow(st: FieldScan, close: string, decode: string -> Field)
    requires st.inList || '(' in close
    requires ')' in close
    ensures ScanFrom(st, [close], decode)
         == FieldScan(st.out + [decode(st.store + close)], st.store + close + ",", false)
  {
    assert [close][1..] == [];
  }

  /** `list_store` only ever grows: each state's store extends the one it came from. */
  lemma {:induction false} ScanStoreGrows(st: FieldScan, entries: seq<string>, decode: string -> Field)
    ensures StartsWith(ScanFrom(st, entries, decode).store, st.store)
    decreases |entries|
  {
    if entries != [] {
      var next := ScanStep(st, entries[0], decode);
      ScanStoreGrows(next, entries[1..], decode);
    }
  }

  /**
   * Because `list_store` is never reset, a second list-valued field is
   * decoded from text that still starts with the first one, so it gets the
   * first field's name again: `name = (x, y), other = (z, w)` gives two
   * fields, both called `name`.
   */
  lemma SecondListKeepsFirstName(name: string, r: string, e2: string, e3: string, e4: string, dapi: DataApi)
    requires PlainWord(name) && ')' !in name
    requires '(' in r && ')' !in r && ')' in e2
    requires '(' in e3 && ')' !in e3 && ')' in e4
    ensures var out := ScanFrom(ScanStart, [name + " = " + r, e2, e3, e4], v => DecodeSingleColumnData(v, dapi)).out;
      |out| == 2 && out[0].0 == name && out[1].0 == name
  {
    var e1 := name + " = " + r;
    assert ')' !in " = ";
    TwoListsScan(e1, e2, e3, e4, v => DecodeSingleColumnData(v, dapi));
    var merged := e1 + "," + e2;
    var head := name + " = ";
    var rest1 := r + "," + e2;
    assert merged == head + rest1 by {
      Assoc(head, r, ",");
      Assoc(head, r + ",", e2);
    }
    DecodeSingleName(name, rest1, dapi);
    var tail := e3 + "," + e4;
    var merged2 := merged + "," + tail;
    assert merged2 == head + (rest1 + "," + tail) by {
      Assoc(head, rest1, ",");
      Assoc(head, rest1 + ",", tail);
    }
    DecodeSingleName(name, rest1 + "," + tail, dapi);
  }

  /** Two lists in a row: the second field is decoded from the store holding both. */
  lemma TwoListsScan(e1: string, e2: string, e3: string, e4: string, decode: string -> Field)
    requires '(' in e1 && ')' !in e1 && ')' in e2
    requires '(' in e3 && ')' !in e3 && ')' in e4
    ensures ScanFrom(ScanStart, [e1, e2, e3, e4], decode).out
         == [decode(e1 + "," + e2), decode(e1 + "," + e2 + "," + (e3 + "," + e4))]
  {
    var mid := ScanFrom(ScanStart, [e1] + [e2], decode);
    var merged := e1 + "," + e2;
    assert mid == FieldScan([decode(merged)], merged + ",", false) by {
      ScanCloseList(ScanStart, [e1], e2, decode);
      assert Join([e1] + [e2], ",") == merged;
      assert "" + merged == merged;
    }
    var last := ScanFrom(mid, [e3] + [e4], decode);
    var merged2 := merged + "," + (e3 + "," + e4);
    assert last == FieldScan(mid.out + [decode(merged2)], merged2 + ",", false) by {
      ScanCloseList(mid, [e3], e4, decode);
      assert Join([e3] + [e4], ",") == e3 + "," + e4;
    }
    ScanFromAppend(ScanStart, [e1] + [e2], [e3] + [e4], decode);
    assert ([e1] + [e2]) + ([e3] + [e4]) == [e1, e2, e3, e4];
  }

  // ----- conditions: `[name = value, and name = value, ...]` -----

  /** An entry that starts with an operator word. */
  predicate IsOperatorEntry(e: string)
  {
    StartsWith(e, " and") || StartsWith(e, " not") || StartsWith(e, " or")
  }

  /** The strings one separator-split entry of a condition list contributes. */
  function ConditionPiece(e: string, cleaned: string): (r: Result<seq<string>>)
    ensures r.Ok? <==> IsOperatorEntry(e) || Contains(e, " = ")
    ensures IsOperatorEntry(e) ==> |r.value| == 2 && StripLeadingWord(TrimStart(e)) == (r.value[0], r.value[1])
    ensures !IsOperatorEntry(e) && Contains(e, " = ") ==> r.value == [e]
    ensures r.Err? ==> r.error == NotACondition(cleaned)
  {
    if IsOperatorEntry(e) then
      var (word, rest) := StripLeadingWord(TrimStart(e));
      Ok([word, rest])
    else if Contains(e, " = ") then Ok([e])
    else Err(NotACondition(cleaned))
  }

  /** The condition list without its brackets. */
  function Unbracket(s: string): string
  {
    Replace(Replace(s, '[', ""), ']', "")
  }

  /** The texts of a condition list (`decode_list_conditions`). */
  function DecodedConditions(value: string, sep: string): (r: Result<seq<string>>)
    requires |sep| > 0
    ensures var es := Split(Unbracket(value), sep);
      r.Ok? <==> forall i :: 0 <= i < |es| ==> IsOperatorEntry(es[i]) || Contains(es[i], " = ")
    ensures var es := Split(Unbracket(value), sep); var cleaned := Unbracket(value);
      r.Ok? ==> r.value == Flatten(seq(|es|, i requires 0 <= i < |es| && ConditionPiece(es[i], cleaned).Ok? =>
                                              ConditionPiece(es[i], cleaned).value))
  {
    var cleaned := Unbracket(value);
    var es := Split(cleaned, sep);
    match AllOk(e => ConditionPiece(e, cleaned), es)
    case Err(e) => Err(e)
    case Ok(pieces) =>
      assert pieces == seq(|es|, i requires 0 <= i < |es| && ConditionPiece(es[i], cleaned).Ok? =>
                                  ConditionPiece(es[i], cleaned).value);
      Ok(Flatten(pieces))
  }

  /** `decode_list_conditions`. */
  method DecodeListConditions(value: string, sep: string) returns (r: Result<seq<string>>)
    requires |sep| > 0
    ensures r == DecodedConditions(value, sep)
  {
    var cleaned := Unbracket(value);
    var entries := Split(cleaned, sep);
    var out: seq<string> := [];
    ghost var pieces: seq<seq<string>> := [];
    for i := 0 to |entries|
      invariant |pieces| == i && out == Flatten(pieces)
      invariant forall k :: 0 <= k < i ==> ConditionPiece(entries[k], cleaned) == Ok(pieces[k])
    {
      // push the operator word and its pair, or the pair itself, or fail
      var piece := ConditionPiece(entries[i], cleaned);
      if piece.Err? {
        DecodedFirstErr(value, sep, i);
        return Err(piece.error);
      }
      FlattenSnoc(pieces, piece.value);
      PiecesExtend(entries, cleaned, pieces);
      out := out + piece.value;
      pieces := pieces + [piece.value];
    }
    DecodedAll(value, sep, pieces);
    r := Ok(out);
  }

  lemma FlattenSnoc(xs: seq<seq<string>>, x: seq<string>)
    ensures Flatten(xs + [x]) == Flatten(xs) + x
  {
    assert (xs + [x])[..|xs|] == xs;
  }

  lemma PiecesExtend(entries: seq<string>, cleaned: string, pieces: seq<seq<string>>)
    requires |pieces| < |entries| && ConditionPiece(entries[|pieces|], cleaned).Ok?
    requires forall k :: 0 <= k < |pieces| ==> ConditionPiece(entries[k], cleaned) == Ok(pieces[k])
    ensures var next := pieces + [ConditionPiece(entries[|pieces|], cleaned).value];
      forall k :: 0 <= k < |next| ==> ConditionPiece(entries[k], cleaned) == Ok(next[k])
  {
    var next := pieces + [ConditionPiece(entries[|pieces|], cleaned).value];
    assert forall k :: 0 <= k < |pieces| ==> next[k] == pieces[k];
  }

  lemma DecodedAll(value: string, sep: string, pieces: seq<seq<string>>)
    requires |sep| > 0
    requires var es := Split(Unbracket(value), sep);
      |pieces| == |es| && forall k :: 0 <= k < |es| ==> ConditionPiece(es[k], Unbracket(value)) == Ok(pieces[k])
    ensures DecodedConditions(value, sep) == Ok(Flatten(pieces))
  {
    var cleaned := Unbracket(value);
    AllOkAll(e => ConditionPiece(e, cleaned), Split(cleaned, sep), pieces);
  }

  lemma DecodedFirstErr(value: string, sep: string, i: nat)
    requires |sep| > 0
    requires var es := Split(Unbracket(value), sep);
      i < |es| && ConditionPiece(es[i], Unbracket(value)).Err?
      && forall k :: 0 <= k < i ==> ConditionPiece(es[k], Unbracket(value)).Ok?
    ensures DecodedConditions(value, sep) == Err(NotACondition(Unbracket(value)))
  {
    var cleaned := Unbracket(value);
    AllOkFirstErr(e => ConditionPiece(e, cleaned), Split(cleaned, sep), i);
  }

  /** One text of a decoded condition list as `(name, data)`. */
  function EncodeCondition(thing: string, dapi: DataApi): (r: Result<Field>)
  {
    var cleaned :=
      if '[' in thing then Replace(thing, '[', "")
      else if ']' in thing then Replace(thing, ']', "")
      else thing;
    if Contains(cleaned, " = ") then Ok(DecodeSingleColumnData(cleaned, dapi))
    else if Contains(cleaned, "and") then Ok((cleaned, dapi.defaultData))
    else if Contains(cleaned, "not") then Ok((cleaned, dapi.defaultData))
    else if Contains(cleaned, "or") then Ok((cleaned, dapi.defaultData))
    else Err(NotATerm(cleaned))
  }

  /** The encoded condition list (`encode_list_conditions`). */
  function EncodedConditions(things: seq<string>, dapi: DataApi): (r: Result<seq<Field>>)
    ensures r.Ok? <==> forall i :: 0 <= i < |things| ==> EncodeCondition(things[i], dapi).Ok?
    ensures r.Ok? ==> |r.value| == |things| && forall i :: 0 <= i < |things| ==> EncodeCondition(things[i], dapi) == Ok(r.value[i])
  {
    AllOk(t => EncodeCondition(t, dapi), things)
  }

  /** The operator words the decoder splits off encode as themselves, with default data. */
  lemma EncodeOperator(w: string, dapi: DataApi)
    requires w == "and" || w == "not" || w == "or"
    ensures EncodeCondition(w, dapi) == Ok((w, dapi.defaultData))
  {
    LacksFirst(w, " = ");
    assert Contains(w, w) by {
      ContainsIff(w, w);
      assert MatchAt(w, w, 0);
    }
    if w == "not" {
      LacksFirst(w, "and");
    } else if w == "or" {
      LacksFirst(w, "and");
      LacksFirst(w, "not");
    }
  }

  /** A text without the first character of a pattern does not contain the pattern. */
  lemma LacksFirst(s: string, pat: string)
    requires |pat| > 0 && pat[0] !in s
    ensures !Contains(s, pat)
  {
    ContainsIff(s, pat);
    forall j: nat | j + |pat| <= |s| ensures !MatchAt(s, pat, j) {
      assert s[j..j + |pat|][0] == s[j];
    }
  }

  /** A bracket-free `name = value` term encodes to a field of that name. */
  lemma EncodePair(name: string, rest: string, dapi: DataApi)
    requires PlainWord(name) && '[' !in name && '[' !in rest && ']' !in rest
    ensures EncodeCondition(name + " = " + rest, dapi).Ok?
    ensures EncodeCondition(name + " = " + rest, dapi).value.0 == name
    ensures EncodeCondition(name + " = " + rest, dapi) == Ok(DecodeSingleColumnData(name + " = " + rest, dapi))
  {
    var t := name + " = " + rest;
    assert t == name + " = " + rest;
    assert '[' !in t && ']' !in t;
    assert Contains(t, " = ") by {
      ContainsIff(t, " = ");
      assert MatchAt(t, " = ", |name|);
    }
    DecodeSingleName(name, rest, dapi);
  }

  /** A bracket-free `name = w1 w2 ...` term encodes to the name and `Data::from` of the words joined by single spaces. */
  lemma EncodePairData(name: string, words: seq<string>, dapi: DataApi)
    requires PlainWord(name) && '[' !in name
    requires forall i :: 0 <= i < |words| ==> PlainWord(words[i]) && '[' !in words[i]
    ensures EncodeCondition(name + " = " + Join(words, " "), dapi) == Ok((name, dapi.fromString(Join(words, " "))))
  {
    var rest := Join(words, " ");
    JoinAvoids(words, " ", '[');
    JoinAvoids(words, " ", ']');
    EncodePair(name, rest, dapi);
    DecodeSingleRoundTrip(name, words, dapi);
  }

  /** `encode_list_conditions`. */
  method EncodeListConditions(things: seq<string>, dapi: DataApi) returns (r: Result<seq<Field>>)
    ensures r == EncodedConditions(things, dapi)
  {
    var list: seq<Field> := [];
    for i := 0 to |things|
      invariant |list| == i && forall k :: 0 <= k < i ==> EncodeCondition(things[k], dapi) == Ok(list[k])
    {
      var step := EncodeCondition(things[i], dapi);
      if step.Err? {
        EncodedFirstErr(things, dapi, i);
        return Err(step.error);
      }
      EncodedExtend(things, dapi, list);
      list := list + [step.value];
    }
    EncodedAll(things, dapi, list);
    r := Ok(list);
  }

  lemma EncodedExtend(things: seq<string>, dapi: DataApi, list: seq<Field>)
    requires |list| < |things| && EncodeCondition(things[|list|], dapi).Ok?
    requires forall k :: 0 <= k < |list| ==> EncodeCondition(things[k], dapi) == Ok(list[k])
    ensures var next := list + [EncodeCondition(things[|list|], dapi).value];
      forall k :: 0 <= k < |next| ==> EncodeCondition(things[k], dapi) == Ok(next[k])
  {
    var next := list + [EncodeCondition(things[|list|], dapi).value];
    assert forall k :: 0 <= k < |list| ==> next[k] == list[k];
  }

  lemma EncodedAll(things: seq<string>, dapi: DataApi, list: seq<Field>)
    requires |list| == |things| && forall k :: 0 <= k < |things| ==> EncodeCondition(things[k], dapi) == Ok(list[k])
    ensures EncodedConditions(things, dapi) == Ok(list)
  {
    AllOkAll(t => EncodeCondition(t, dapi), things, list);
  }

  lemma EncodedFirstErr(things: seq<string>, dapi: DataApi, i: nat)
    requires i < |things| && EncodeCondition(things[i], dapi).Err?
    requires forall k :: 0 <= k < i ==> EncodeCondition(things[k], dapi).Ok?
    ensures EncodedConditions(things, dapi) == Err(EncodeCondition(things[i], dapi).error)
  {
    AllOkFirstErr(t => EncodeCondition(t, dapi), things, i);
  }

}
