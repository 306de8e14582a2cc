/** Outcome datatypes shared by the models: an optional value, and a value or the exception raised instead. */
module Wrappers {

  datatype Option<+T> = None | Some(value: T)

  /** The exceptions the modelled Python code can raise. */
  datatype Error =
    | ValueError
    | KeyError
    | IndexError
    | AttributeError
    | RuntimeError

  datatype Result<+T> = Ok(value: T) | Err(error: Error)

  // ---------------------------------------------------------------- reading a file to the first error

  /** The values read from a sequence of lines, where a line may hold nothing, or the first error. */
  function Collect<T>(read: seq<Option<Result<T>>>): Result<seq<T>> {
    if read == [] then Ok([])
    else
      var n := |read| - 1;
      WithLine(Collect(read[..n]), read[n])
  }

  function WithLine<T>(before: Result<seq<T>>, line: Option<Result<T>>): Result<seq<T>> {
    if before.Err? || line.None? then before
    else if line.value.Err? then Err(line.value.error)
    else Ok(before.value + [line.value.value])
  }

  lemma CollectStep<T>(read: seq<Option<Result<T>>>, i: nat)
    requires i < |read|
    ensures Collect(read[..i + 1]) == WithLine(Collect(read[..i]), read[i])
  {
    assert read[..i + 1][..i] == read[..i];
  }

  /** The first error is the error of the whole. */
  lemma CollectStops<T>(read: seq<Option<Result<T>>>, i: nat)
    requires i < |read| && Collect(read[..i]).Ok? && read[i].Some? && read[i].value.Err?
    ensures Collect(read) == Err(read[i].value.error)
  {
    CollectStep(read, i);
    CollectError(read, i + 1);
  }

  /** An error at a prefix is the error of the whole. */
  lemma {:induction false} CollectError<T>(read: seq<Option<Result<T>>>, i: nat)
    requires i <= |read| && Collect(read[..i]).Err?
    ensures Collect(read) == Collect(read[..i])
  {
    if i == |read| {
      assert read[..i] == read;
    } else {
      var n := |read| - 1;
      assert read[..n][..i] == read[..i];
      CollectError(read[..n], i);
    }
  }

  /** Nothing but errors stops a file, and each collected value was read from a line. */
  lemma {:induction false} CollectedFrom<T>(read: seq<Option<Result<T>>>)
    ensures Collect(read).Ok? <==> forall i :: 0 <= i < |read| && read[i].Some? ==> read[i].value.Ok?
    ensures Collect(read).Ok? ==>
      forall v :: v in Collect(read).value <==> exists i :: 0 <= i < |read| && read[i] == Some(Ok(v))
  {
    if read != [] {
      var n := |read| - 1;
      CollectedFrom(read[..n]);
      assert forall i :: 0 <= i < n ==> read[..n][i] == read[i];
    }
  }

  /** When every line holds a value, the values are collected one for one. */
  lemma {:induction false} CollectAll<T>(read: seq<Option<Result<T>>>)
    requires forall i :: 0 <= i < |read| ==> read[i].Some? && read[i].value.Ok?
    ensures Collect(read).Ok? && |Collect(read).value| == |read|
    ensures forall i :: 0 <= i < |read| ==> read[i] == Some(Ok(Collect(read).value[i]))
  {
    if read != [] {
      CollectAll(read[..|read| - 1]);
    }
  }

  lemma CollectIs<T>(read: seq<Option<Result<T>>>, values: seq<T>)
    requires |read| == |values| && forall i :: 0 <= i < |read| ==> read[i] == Some(Ok(values[i]))
    ensures Collect(read) == Ok(values)
  {
    CollectAll(read);
    assert Collect(read).value == values;
  }
}
