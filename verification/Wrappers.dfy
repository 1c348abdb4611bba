/** Helpers shared by the modules. */
module Wrappers {
  datatype Option<+T> = None | Some(value: T)

  /** `std::remove` and `erase`: all occurrences. */
  function RemoveAll(s: seq<int>, x: int): (r: seq<int>)
    ensures forall y :: y in r <==> y in s && y != x
  {
    if s == [] then []
    else
      var rest, last := s[..|s| - 1], s[|s| - 1];
      assert s == rest + [last];
      if last == x then RemoveAll(rest, x) else RemoveAll(rest, x) + [last]
  }
}
