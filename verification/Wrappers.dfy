/** Shared result types. */
module Wrappers {

  datatype Option<+T> = None | Some(value: T)

  /** Saturating subtraction on unsigned machine integers. */
  function SatSub(a: nat, b: nat): nat {
    if a >= b then a - b else 0
  }

  /** Any element: the order in which a hash set is iterated is not specified. */
  method Pick<T>(s: set<T>) returns (x: T)
    requires s != {}
    ensures x in s
  {
    x :| x in s;
  }
}
