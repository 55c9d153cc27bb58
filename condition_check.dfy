/**
 * `condition_check` of util.rs: the set algebra over row indices that joins
 * the row sets of two condition terms with `and`, `not`, `or` or `xor`.
 * Row sets are sequences of indices; they may hold duplicates and their
 * order is kept.
 */
module RowSets {
  import opened Values

  /** No index occurs twice. */
  predicate NoDup(s: seq<nat>)
  {
    forall i, j :: 0 <= i < j < |s| ==> s[i] != s[j]
  }

  /** The elements of `a` that are (`keep`) or are not (`!keep`) in `b`, in order. */
  function Filter(a: seq<nat>, b: seq<nat>, keep: bool): (r: seq<nat>)
    ensures |r| <= |a|
    ensures forall x :: x in r <==> x in a && (x in b) == keep
  {
    if a == [] then []
    else
      var p := Filter(a[..|a| - 1], b, keep);
      assert a == a[..|a| - 1] + [a[|a| - 1]];
      if (a[|a| - 1] in b) == keep then p + [a[|a| - 1]] else p
  }

  /** Filtering a concatenation filters each part: the order of `a` is kept. */
  lemma {:induction false} FilterAppend(a: seq<nat>, c: seq<nat>, b: seq<nat>, keep: bool)
    ensures Filter(a + c, b, keep) == Filter(a, b, keep) + Filter(c, b, keep)
    decreases |c|
  {
    if c == [] {
      assert a + c == a;
    } else {
      var c0 := c[..|c| - 1];
      assert (a + c)[..|a + c| - 1] == a + c0;
      assert (a + c)[|a + c| - 1] == c[|c| - 1];
      FilterAppend(a, c0, b, keep);
    }
  }

  /** A one-element row set passes the filter whole or not at all. */
  lemma FilterSingle(x: nat, b: seq<nat>, keep: bool)
    ensures Filter([x], b, keep) == if (x in b) == keep then [x] else []
  {
    assert [x][..0] == [];
  }

  /** Duplicates of `a` stay duplicates: filtering keeps every copy. */
  lemma {:induction false} FilterNoDup(a: seq<nat>, b: seq<nat>, keep: bool)
    requires NoDup(a)
    ensures NoDup(Filter(a, b, keep))
  {
    if a != [] {
      var init := a[..|a| - 1];
      assert NoDup(init);
      FilterNoDup(init, b, keep);
      assert a[|a| - 1] !in init;
    }
  }

  /** `acc` followed by each element of `xs` that is not already present. */
  function AddMissing(acc: seq<nat>, xs: seq<nat>): (r: seq<nat>)
    ensures |acc| <= |r| && r[..|acc|] == acc
    ensures forall x :: x in r <==> x in acc || x in xs
    ensures NoDup(acc) ==> NoDup(r)
  {
    if xs == [] then acc
    else
      var p := AddMissing(acc, xs[..|xs| - 1]);
      var x := xs[|xs| - 1];
      assert xs == xs[..|xs| - 1] + [x];
      if x in p then p
      else
        var r := p + [x];
        assert r[..|acc|] == p[..|acc|];
        r
  }

  /** The elements of `a`, each once, in the order they first occur. */
  function Dedup(a: seq<nat>): (r: seq<nat>)
    ensures NoDup(r)
    ensures forall x :: x in r <==> x in a
  {
    AddMissing([], a)
  }

  /** A row set without duplicates is its own deduplication. */
  lemma {:induction false} DedupNoDup(a: seq<nat>)
    requires NoDup(a)
    ensures Dedup(a) == a
  {
    if a != [] {
      var init := a[..|a| - 1];
      assert NoDup(init);
      DedupNoDup(init);
      assert a[|a| - 1] !in init;
      assert a == init + [a[|a| - 1]];
    }
  }

  /** The `or` branch: both row sets, duplicates dropped, left elements first. */
  function Or(a: seq<nat>, b: seq<nat>): (r: seq<nat>)
    ensures NoDup(r)
    ensures forall x :: x in r <==> x in a || x in b
    ensures |Dedup(a)| <= |r| && r[..|Dedup(a)|] == Dedup(a)
  {
    AddMissing(Dedup(a), b)
  }

  /** The position of the first `x` in `s`. */
  function FirstPos(s: seq<nat>, x: nat): (i: nat)
    requires x in s
    ensures i < |s| && s[i] == x && x !in s[..i]
  {
    if s[0] == x then 0
    else
      var k := FirstPos(s[1..], x);
      assert s[1..][..k] == s[1..k + 1];
      k + 1
  }

  /** `Vec::remove` at the first position of `x`. */
  function RemoveFirst(s: seq<nat>, x: nat): (r: seq<nat>)
    requires x in s
    ensures |r| == |s| - 1
  {
    var i := FirstPos(s, x);
    s[..i] + s[i + 1..]
  }

  /** Removing `x` from a duplicate-free row set removes exactly `x`. */
  lemma RemoveFirstNoDup(s: seq<nat>, x: nat)
    requires x in s && NoDup(s)
    ensures NoDup(RemoveFirst(s, x))
    ensures forall y :: y in RemoveFirst(s, x) <==> y in s && y != x
  {
    var i := FirstPos(s, x);
    var r := RemoveFirst(s, x);
    assert r == s[..i] + s[i + 1..];
    forall p, q | 0 <= p < q < |r| ensures r[p] != r[q] {
      var p' := if p < i then p else p + 1;
      var q' := if q < i then q else q + 1;
      assert r[p] == s[p'] && r[q] == s[q'];
    }
    forall y ensures y in r <==> y in s && y != x {
      if y in r {
        var k :| 0 <= k < |r| && r[k] == y;
        var k' := if k < i then k else k + 1;
        assert s[k'] == y && k' != i;
      }
      if y in s && y != x {
        var k :| 0 <= k < |s| && s[k] == y;
        assert k != i;
        if k < i { assert r[k] == y; } else { assert r[k - 1] == y; }
      }
    }
  }

  /**
   * `acc` after each element of `xs` in turn is added when absent and
   * removed (its first occurrence) when present.
   */
  function Toggle(acc: seq<nat>, xs: seq<nat>): (r: seq<nat>)
    ensures NoDup(acc) ==> NoDup(r)
  {
    if xs == [] then acc
    else
      var p := Toggle(acc, xs[..|xs| - 1]);
      var x := xs[|xs| - 1];
      if x in p then
        assert NoDup(p) ==> NoDup(RemoveFirst(p, x)) by {
          if NoDup(p) { RemoveFirstNoDup(p, x); }
        }
        RemoveFirst(p, x)
      else p + [x]
  }

  /** The `xor` branch: the left row set deduplicated, then toggled by the right one. */
  function Xor(a: seq<nat>, b: seq<nat>): (r: seq<nat>)
    ensures NoDup(r)
  {
    Toggle(Dedup(a), b)
  }

  /** On duplicate-free arguments toggling gives the symmetric difference. */
  lemma {:induction false} ToggleSymmetric(acc: seq<nat>, xs: seq<nat>)
    requires NoDup(acc) && NoDup(xs)
    ensures NoDup(Toggle(acc, xs))
    ensures forall y :: y in Toggle(acc, xs) <==> (y in acc) != (y in xs)
  {
    if xs != [] {
      var init := xs[..|xs| - 1];
      var x := xs[|xs| - 1];
      assert NoDup(init);
      ToggleSymmetric(acc, init);
      var p := Toggle(acc, init);
      assert x !in init;
      assert xs == init + [x];
      if x in p {
        RemoveFirstNoDup(p, x);
      }
    }
  }

  /** `xor` of duplicate-free row sets holds exactly the indices in one of them. */
  lemma XorSymmetricDifference(a: seq<nat>, b: seq<nat>)
    requires NoDup(b)
    ensures NoDup(Xor(a, b))
    ensures forall x :: x in Xor(a, b) <==> (x in a) != (x in b)
  {
    ToggleSymmetric(Dedup(a), b);
  }

  /** `xor` of a duplicate-free row set with itself is empty. */
  lemma XorSelf(a: seq<nat>)
    requires NoDup(a)
    ensures Xor(a, a) == []
  {
    XorSymmetricDifference(a, a);
    HeadIn(Xor(a, a));
  }

  lemma HeadIn(r: seq<nat>)
    ensures r == [] || r[0] in r
  {
  }

  /**
   * Without the duplicate-free premise the symmetric difference is lost:
   * a duplicate on the right is toggled twice.
   */
  lemma XorDuplicates()
    ensures Xor([1, 1], [1, 1]) == [1]
  {
    var d := Dedup([1, 1]);
    assert [1, 1][..1] == [1];
    assert AddMissing([], [1]) == [1] by {
      assert [1][..0] == [];
    }
    assert d == [1];
    var t1 := Toggle(d, [1]);
    assert t1 == [] by {
      assert [1][..0] == [];
      assert FirstPos([1], 1) == 0;
    }
    assert Toggle(d, [1, 1]) == [1];
  }

  /** What `condition_check(search, condition, other_search)` returns. */
  function CheckSpec(search: seq<nat>, condition: string, other: seq<nat>): (r: Result<seq<nat>>)
    ensures r.Err? <==> condition !in {"and", "not", "or", "xor"}
    ensures r.Err? ==> r.error == InvalidSyntax
  {
    match condition
    case "and" => Ok(Filter(search, other, true))
    case "not" => Ok(Filter(search, other, false))
    case "or" => Ok(Or(search, other))
    case "xor" => Ok(Xor(search, other))
    case _ => Err(InvalidSyntax)
  }

  /** `and` keeps the left indices that the right row set holds, in order. */
  lemma AndIsIntersection(a: seq<nat>, b: seq<nat>)
    ensures CheckSpec(a, "and", b).Ok?
    ensures forall x :: x in CheckSpec(a, "and", b).value <==> x in a && x in b
    ensures NoDup(a) ==> NoDup(CheckSpec(a, "and", b).value)
  {
    if NoDup(a) { FilterNoDup(a, b, true); }
  }

  /** `not` keeps the left indices that the right row set lacks, in order. */
  lemma NotIsDifference(a: seq<nat>, b: seq<nat>)
    ensures CheckSpec(a, "not", b).Ok?
    ensures forall x :: x in CheckSpec(a, "not", b).value <==> x in a && x !in b
    ensures NoDup(a) ==> NoDup(CheckSpec(a, "not", b).value)
  {
    if NoDup(a) { FilterNoDup(a, b, false); }
  }

  /** `and` and `not` split the left row set between them. */
  lemma AndNotPartition(a: seq<nat>, b: seq<nat>)
    ensures |Filter(a, b, true)| + |Filter(a, b, false)| == |a|
  {
    if a != [] {
      var init := a[..|a| - 1];
      AndNotPartition(init, b);
    }
  }

  /** `condition_check`: the loops of the source over a growing `found_data`. */
  method ConditionCheck(search: seq<nat>, condition: string, otherSearch: seq<nat>) returns (r: Result<seq<nat>>)
    ensures r == CheckSpec(search, condition, otherSearch)
  {
    var foundData: seq<nat> := [];
    match condition {
      case "and" =>
        foundData := KeepIf(search, otherSearch, true);
      case "not" =>
        foundData := KeepIf(search, otherSearch, false);
      case "or" =>
        var combined := PushMissing([], search);
        foundData := PushMissing(combined, otherSearch);
      case "xor" =>
        var combined := PushMissing([], search);
        foundData := PushOrRemove(combined, otherSearch);
      case _ =>
        return Err(InvalidSyntax);
    }
    return Ok(foundData);
  }

  /** One `for entry in search` loop of `and` / `not`. */
  method KeepIf(search: seq<nat>, other: seq<nat>, keep: bool) returns (found: seq<nat>)
    ensures found == Filter(search, other, keep)
  {
    found := [];
    for i := 0 to |search|
      invariant found == Filter(search[..i], other, keep)
    {
      assert search[..i + 1][..i] == search[..i];
      if (search[i] in other) == keep {
        found := found + [search[i]];
      }
    }
    assert search[..|search|] == search;
  }

  /** A loop that pushes each entry missing from `combined_vec`. */
  method PushMissing(acc: seq<nat>, xs: seq<nat>) returns (combined: seq<nat>)
    ensures combined == AddMissing(acc, xs)
  {
    combined := acc;
    for i := 0 to |xs|
      invariant combined == AddMissing(acc, xs[..i])
    {
      assert xs[..i + 1][..i] == xs[..i];
      if xs[i] !in combined {
        combined := combined + [xs[i]];
      }
    }
    assert xs[..|xs|] == xs;
  }

  /** The second loop of `xor`: push when missing, otherwise remove at its position. */
  method PushOrRemove(acc: seq<nat>, xs: seq<nat>) returns (combined: seq<nat>)
    ensures combined == Toggle(acc, xs)
  {
    combined := acc;
    for i := 0 to |xs|
      invariant combined == Toggle(acc, xs[..i])
    {
      assert xs[..i + 1][..i] == xs[..i];
      if xs[i] !in combined {
        combined := combined + [xs[i]];
      } else {
        var index := Position(combined, xs[i]);
        combined := combined[..index] + combined[index + 1..];
      }
    }
    assert xs[..|xs|] == xs;
  }

  /** `iter().position(|n| n == &x).unwrap()` on a vector known to hold `x`. */
  method Position(s: seq<nat>, x: nat) returns (i: nat)
    requires x in s
    ensures i == FirstPos(s, x)
  {
    i := 0;
    while s[i] != x
      invariant i < |s| && x !in s[..i]
      decreases |s| - i
    {
      assert s[..i + 1] == s[..i] + [s[i]];
      i := i + 1;
    }
    FirstPosUnique(s, x, i);
  }

  /** The first position is the only one with nothing equal to `x` before it. */
  lemma FirstPosUnique(s: seq<nat>, x: nat, i: nat)
    requires i < |s| && s[i] == x && x !in s[..i]
    ensures FirstPos(s, x) == i
  {
  }
}
