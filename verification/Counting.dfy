/** Counting elements. */
module Counting {
  function Bit(b: bool): nat {
    if b then 1 else 0
  }

  function Elements(xs: seq<nat>): set<nat> {
    set x | x in xs
  }

  predicate Distinct(s: seq<nat>) {
    forall i, j :: 0 <= i < j < |s| ==> s[i] != s[j]
  }

  function Interval(a: nat, n: nat): (r: set<nat>)
    ensures |r| == n
    ensures forall x :: a <= x < a + n <==> x in r
  {
    if n == 0 then {} else Interval(a, n - 1) + {a + n - 1}
  }

  lemma {:induction false} SubsetFits(a: set<nat>, b: set<nat>)
    requires a <= b
    ensures |a| <= |b|
  {
    if a != {} {
      var x :| x in a;
      SubsetFits(a - {x}, b - {x});
    }
  }

  lemma OneMore(some: set<nat>, xs: set<nat>, x: nat)
    requires some <= xs && x in xs && x !in some
    ensures some + {x} <= xs && |some + {x}| == |some| + 1
  {
  }
}
