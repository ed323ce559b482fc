/** Finite sets: unused numbers and sizes. */
module FiniteSets {

  /** A number larger than any in s. */
  ghost function Beyond(s: set<nat>): (h: nat)
    ensures forall x :: x in s ==> x < h
  {
    if s == {} then 0
    else
      var y :| y in s;
      var h := Beyond(s - {y});
      assert forall x :: x in s ==> x == y || x in s - {y};
      if y < h then h else y + 1
  }

  /** The host's own malloc always finds an unused handle. */
  lemma FreshNumber(s: set<nat>)
    ensures exists h: nat :: h !in s
  {
    assert Beyond(s) !in s;
  }

  lemma {:induction false} SubsetSize<T>(a: set<T>, b: set<T>)
    requires a <= b
    ensures |a| <= |b|
    decreases a
  {
    if a != {} {
      var x :| x in a;
      SubsetSize(a - {x}, b - {x});
    }
  }
}
