/**
 * The values that flow through the NQL pipeline: cell data (`Data`), the
 * answer of a command (`Success`), the errors the decoders and the engine
 * report, and the way a command can end (an answer or a panic).
 */
module Values {
  import opened Rust

  /** Rust's `f64`. Its arithmetic is never used here; only equality is. */
  type F64(==)

  /** `Data` as the engine stores and returns it. */
  datatype Data =
    | List(items: seq<Data>)
    | Float(number: F64)
    | Bool(flag: bool)
    | String(text: string)

  /** What a successful command gives back. */
  datatype Success =
    | SuccessMessage(ok: bool)
    | Result(rows: seq<Data>)

  /**
   * The errors returned by the decoders and by `execute`. Each carries the
   * text that the corresponding formatted message shows.
   */
  datatype Error =
    | InvalidSyntax                          // "Invalid nql syntax."
    | NotAColumnList(text: string)           // strip_column_list
    | WrongColumnArity(piece: string)        // decode_columnmaker, not `name bool`
    | NotABool(token: string)                // decode_columnmaker, bad unique flag
    | NotACondition(text: string)            // decode_list_conditions
    | NotATerm(text: string)                 // encode_list_conditions
    | ShouldBe(found: string, expected: string) // "{found} should be {expected}"
    | TableNotFound(name: string)            // search_for_table
    | DeletionError                          // delete_column, "Deletion error!"
    | TableFailure(detail: string)           // reported by a table operation

  datatype Result<+T> = Ok(value: T) | Err(error: Error)

  /** Why a command aborted the program instead of returning. */
  datatype Panic =
    | UnwrapErr(error: Error)                // `Result::unwrap` on `Err`
    | UnwrapNone                             // `Option::unwrap` on `None`
    | IndexOutOfBounds(index: nat, length: nat)

  /** How a call of `execute` ends. */
  datatype Outcome =
    | Answer(result: Result<Success>)
    | Panicked(reason: Panic)

  /**
   * `Data::from(String)` and `Data::default()`, whose bodies are not part of
   * this model.
   */
  datatype DataApi = DataApi(fromString: string -> Data, defaultData: Data)

  /**
   * Applies `f` to every element in order and stops at the first error, as
   * a Rust loop with `?` or an early `return Err(..)` does.
   */
  function AllOk<A, B>(f: A -> Result<B>, xs: seq<A>): (r: Result<seq<B>>)
    ensures r.Ok? <==> forall i :: 0 <= i < |xs| ==> f(xs[i]).Ok?
    ensures r.Ok? ==> |r.value| == |xs| && forall i :: 0 <= i < |xs| ==> f(xs[i]) == Ok(r.value[i])
    ensures r.Err? ==> exists i :: 0 <= i < |xs| && f(xs[i]) == Err(r.error) && forall j :: 0 <= j < i ==> f(xs[j]).Ok?
  {
    if xs == [] then Ok([])
    else match f(xs[0])
      case Err(e) => Err(e)
      case Ok(y) =>
        match AllOk(f, xs[1..])
        case Err(e) =>
          var r: Result<seq<B>> := Err(e);
          assert exists i :: 0 <= i < |xs| && f(xs[i]) == Err(e) && forall j :: 0 <= j < i ==> f(xs[j]).Ok? by {
            var i :| 0 <= i < |xs[1..]| && f(xs[1..][i]) == Err(e) && forall j :: 0 <= j < i ==> f(xs[1..][j]).Ok?;
            assert f(xs[i + 1]) == Err(e);
            forall j | 0 <= j < i + 1 ensures f(xs[j]).Ok? {
              if j > 0 { assert xs[j] == xs[1..][j - 1]; }
            }
          }
          r
        case Ok(ys) =>
          var r: Result<seq<B>> := Ok([y] + ys);
          assert forall i :: 0 <= i < |xs| ==> f(xs[i]) == Ok(r.value[i]) by {
            forall i | 0 <= i < |xs| ensures f(xs[i]) == Ok(r.value[i]) {
              if i > 0 { assert xs[i] == xs[1..][i - 1]; }
            }
          }
          r
  }

  /** When every element succeeds, `AllOk` collects exactly those values. */
  lemma AllOkAll<A, B>(f: A -> Result<B>, xs: seq<A>, ys: seq<B>)
    requires |ys| == |xs| && forall i :: 0 <= i < |xs| ==> f(xs[i]) == Ok(ys[i])
    ensures AllOk(f, xs) == Ok(ys)
  {
    var r := AllOk(f, xs);
    assert r.Ok?;
    assert r.value == ys by {
      forall i | 0 <= i < |xs| ensures r.value[i] == ys[i] {
        assert f(xs[i]) == Ok(r.value[i]);
      }
    }
  }

  /** The first failing element decides the error of `AllOk`. */
  lemma AllOkFirstErr<A, B>(f: A -> Result<B>, xs: seq<A>, i: nat)
    requires i < |xs| && f(xs[i]).Err?
    requires forall j :: 0 <= j < i ==> f(xs[j]).Ok?
    ensures AllOk(f, xs) == Err(f(xs[i]).error)
  {
    var r := AllOk(f, xs);
    assert r.Err?;
    var k :| 0 <= k < |xs| && f(xs[k]) == Err(r.error) && forall j :: 0 <= j < k ==> f(xs[j]).Ok?;
    // both are failures, so neither comes before the other
    assert f(xs[k]).Err? && f(xs[i]).Err?;
  }
}
