/** What the other modules share. */
module Basics {

  datatype Option<+T> = None | Some(value: T)

  function Min(a: nat, b: nat): nat {
    if a <= b then a else b
  }

  /** How many of the flags are like this one. */
  function Count(flags: seq<bool>, want: bool): (n: nat)
    ensures n <= |flags|
  {
    if flags == [] then 0 else
      Count(flags[..|flags| - 1], want) + if flags[|flags| - 1] == want then 1 else 0
  }
}
