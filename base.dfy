/** Option and Result, the two wrappers the model uses for absent values and thrown errors. */
module Base {

  datatype Option<+T> = None | Some(value: T) {

    /** The value, or `default` when absent: the source's `??` operator. */
    function GetOr(default: T): T {
      if Some? then value else default
    }
  }

  datatype Result<+T, +E> = Ok(value: T) | Err(error: E) {

    predicate IsFailure() {
      Err?
    }

    function PropagateFailure<U>(): Result<U, E>
      requires Err?
    {
      Err(error)
    }

    function Extract(): T
      requires Ok?
    {
      value
    }
  }

  /** A suffix of a sequence is its first element followed by the rest. */
  lemma SuffixCons<T>(s: seq<T>, m: nat)
    requires m < |s|
    ensures s[m..] == [s[m]] + s[m + 1..]
  {
  }

  /** A prefix one longer is the shorter prefix followed by the next element. */
  lemma PrefixSnoc<T>(s: seq<T>, i: nat)
    requires i < |s|
    ensures s[..i + 1] == s[..i] + [s[i]]
  {
  }

  /** Appending is associative. */
  lemma AppendAssoc<T>(a: seq<T>, b: seq<T>, c: seq<T>)
    ensures a + b + c == a + (b + c)
  {
  }
}
