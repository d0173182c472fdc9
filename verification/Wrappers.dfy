// What the models share: an optional value, a value or an error, bytes and bounded lists.
module Wrappers {
  datatype Option<+T> = None | Some(value: T)

  datatype Result<+T, +E> = Success(value: T) | Failure(error: E)

  // A byte as the network delivers it.
  type Byte = b: int | 0 <= b < 256 witness 0

  // The last `limit` elements, as a bounded deque keeps them.
  function TakeLast<T>(s: seq<T>, limit: nat): seq<T> {
    if |s| <= limit then s else s[|s| - limit..]
  }

  lemma TakesTheLast<T>(s: seq<T>, limit: nat)
    ensures var r := TakeLast(s, limit);
            && |r| <= limit && |r| <= |s| && (|r| == limit || |r| == |s|)
            && r == s[|s| - |r|..]
  {
  }
}
