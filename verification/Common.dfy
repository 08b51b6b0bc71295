/**
 What several of the models share.
 */
module Common {

  datatype Option<+T> = None | Some(value: T)

  predicate NoRepeats<T(==)>(s: seq<T>) {
    forall i, j | 0 <= i < j < |s| :: s[i] != s[j]
  }

  /** Any two of these are ordered one way, and the order carries over. */
  ghost predicate Orders<T>(all: set<T>, before: (T, T) -> bool) {
    && (forall x, y | x in all && y in all :: x == y || before(x, y) || before(y, x))
    && (forall x, y, z | x in all && y in all && z in all && before(x, y) && before(y, z) :: x == z || before(x, z))
  }

  method Least<T(==)>(all: set<T>, before: (T, T) -> bool) returns (least: T)
    requires all != {} && Orders(all, before)
    ensures least in all && forall x | x in all :: x == least || before(least, x)
  {
    least :| least in all;
    var rest := all - {least};
    while rest != {}
      invariant rest <= all && least in all
      invariant forall x | x in all && x !in rest :: x == least || before(least, x)
      decreases rest
    {
      var x :| x in rest;
      rest := rest - {x};
      if before(x, least) {
        least := x;
      }
    }
  }
}
