/** Bytes, and comparing texts element by element. */
module Bytes {
  type byte = x: int | 0 <= x < 256

  /** is_same_line, and the string comparison of the archive reader. */
  method SameText<T(==)>(x: seq<T>, y: seq<T>) returns (same: bool)
    ensures same <==> x == y
  {
    var i := 0;
    while i < |x| && i < |y|
      invariant i <= |x| && i <= |y| && x[..i] == y[..i]
    {
      if x[i] != y[i] { return false; }
      i := i + 1;
    }
    return |x| == |y|;
  }
}
