/** The values the patch engine works on: the destination tree, the
    scalars at its leaves, and the ways an application can fail. */
module Values {

  /** A JSON scalar. Numbers are integers only. */
  datatype Scalar = Num(n: int) | Str(s: string) | Bool(b: bool) | Null

  /** A node of the destination tree: a mapping node (string keys, order
      irrelevant), a sequence node (order significant) or a scalar leaf. */
  datatype Node = Obj(fields: map<string, Node>) | Arr(items: seq<Node>) | Leaf(v: Scalar)

  /** Why applying an entry stopped. Each stands for a place where the
      JavaScript code throws a TypeError, or would silently produce a value
      (undefined, a NaN-named property) that the model does not represent. */
  datatype Failure =
    | InvalidPath      // the path is neither a string nor an array, or change got a falsy non-string path
    | PathNotFound     // a key or index along the path is absent
    | BadIndex         // a token or key that must index a sequence is not a decimal index
    | NotContainer     // descending into or writing into a scalar leaf; deleting from null or a string's own property
    | BadChange        // a change element that is not a [key, value] pair with a scalar key
    | OutOfRange       // change writes past the end of a sequence (JavaScript leaves holes)
    | MissingValue     // change got an empty changes list (the new value would be undefined)

  datatype Option<+T> = None | Some(value: T)

  datatype Result<+T> = Ok(value: T) | Err(error: Failure) {
    predicate IsFailure() { Err? }

    function PropagateFailure<U>(): Result<U>
      requires Err?
    {
      Err(error)
    }

    function Extract(): T
      requires Ok?
    {
      value
    }
  }
}
