/** Shared vocabulary of the model: optional values, the Python exceptions the
    modelled code raises, and a failure-compatible Result type. */
module Common {

  datatype Option<+T> = None | Some(value: T)

  /** The Python exceptions raised by the modelled code.  Messages are kept
      only where the source uses a fixed text. */
  datatype Error =
    | ValueError(msg: string)
    | KeyError(key: string)
    | IndexError
    | AssertionError(msg: string)
    | TypeError(msg: string)
    | AttributeError
    | NotImplementedError(names: set<string>)
    | RuntimeError(msg: string)
    | FileNotFoundError(path: string)
    | ZeroDivisionError
    | HTTPError(status: int)
    /** a DB::Exception reported by the ClickHouse server */
    | ServerError(msg: string)
    /** argparse's usage error (exit status 2) for the value of an option */
    | UsageError(value: string)

  datatype Result<+T> = Success(value: T) | Failure(error: Error) {
    predicate IsFailure() { Failure? }

    function PropagateFailure<U>(): Result<U>
      requires Failure?
    {
      Failure(error)
    }

    function Extract(): T
      requires Success?
    {
      value
    }
  }

  /** Python's `//`: division rounding toward negative infinity. */
  function FloorDiv(a: int, b: int): (q: int)
    requires b != 0
    ensures b > 0 ==> q * b <= a < q * b + b
    ensures b < 0 ==> q * b >= a > q * b + b
  {
    if b > 0 then a / b
    else if a % -b == 0 then -(a / -b)
    else -(a / -b) - 1
  }

  /** Concatenation of a sequence of chunks, in order. */
  function Flatten<T>(chunks: seq<seq<T>>): seq<T>
  {
    if chunks == [] then [] else Flatten(chunks[..|chunks| - 1]) + chunks[|chunks| - 1]
  }

  lemma FlattenSnoc<T>(chunks: seq<seq<T>>, c: seq<T>)
    ensures Flatten(chunks + [c]) == Flatten(chunks) + c
  {
    assert (chunks + [c])[..|chunks|] == chunks;
  }

  /** A non-empty sequence is its front followed by its last element. */
  lemma InitLast<T>(s: seq<T>)
    requires s != []
    ensures s == s[..|s| - 1] + [s[|s| - 1]]
    ensures forall x :: x in s <==> x in s[..|s| - 1] || x == s[|s| - 1]
  {
    assert s == s[..|s| - 1] + [s[|s| - 1]];
  }

  /** The head and tail of a concatenation with a non-empty front. */
  lemma ConsAppend<T>(a: seq<T>, b: seq<T>)
    requires a != []
    ensures (a + b)[0] == a[0] && (a + b)[1..] == a[1..] + b
  {
  }

  lemma AppendAssoc<T>(h: seq<T>, x: seq<T>, y: seq<T>)
    ensures h + (x + y) == (h + x) + y
  {
  }
}
