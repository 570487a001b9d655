/** `std::cmp::Ordering` and the order Rust gives to strings: character
    by character, a proper prefix first. */
module Ordering {

  datatype Ordering = Less | Equal | Greater
  {
    function Reverse(): Ordering
    {
      match this
      case Less => Greater
      case Equal => Equal
      case Greater => Less
    }
  }

  /** Lexicographic comparison by character code. For the strings in
      this model this agrees with Rust's byte-wise comparison of UTF-8. */
  function CompareStrings(x: string, y: string): Ordering
  {
    if |x| == 0 && |y| == 0 then Equal
    else if |x| == 0 then Less
    else if |y| == 0 then Greater
    else if x[0] < y[0] then Less
    else if x[0] > y[0] then Greater
    else CompareStrings(x[1..], y[1..])
  }

  /** Only equal strings compare `Equal`. */
  lemma {:induction false} CompareStringsEqual(x: string, y: string)
    ensures CompareStrings(x, y) == Equal <==> x == y
    decreases |x|
  {
    if |x| > 0 && |y| > 0 && x[0] == y[0] {
      CompareStringsEqual(x[1..], y[1..]);
      if x[1..] == y[1..] {
        assert x == [x[0]] + x[1..] && y == [y[0]] + y[1..];
      }
    }
  }

  /** Swapping the operands reverses the answer. */
  lemma {:induction false} CompareStringsAntisymmetric(x: string, y: string)
    ensures CompareStrings(y, x) == CompareStrings(x, y).Reverse()
    decreases |x|
  {
    if |x| > 0 && |y| > 0 && x[0] == y[0] {
      CompareStringsAntisymmetric(x[1..], y[1..]);
    }
  }

  /** The string order is transitive. */
  lemma {:induction false} CompareStringsTransitive(x: string, y: string, z: string)
    requires CompareStrings(x, y) == Less && CompareStrings(y, z) == Less
    ensures CompareStrings(x, z) == Less
    decreases |x|
  {
    if |x| > 0 && |y| > 0 && |z| > 0 && x[0] == y[0] && y[0] == z[0] {
      CompareStringsTransitive(x[1..], y[1..], z[1..]);
    }
  }
}
