/** Counting the elements of a sequence that satisfy a predicate, by position. */
module Counting {
  /** The positions of `xs` whose element satisfies `p`. */
  ghost function Positions<T>(xs: seq<T>, p: T -> bool): set<int> {
    set k | 0 <= k < |xs| && p(xs[k])
  }

  /** How many elements of `xs` satisfy `p`, counted from the back. */
  function CountIf<T>(xs: seq<T>, p: T -> bool): (n: nat)
    ensures n == |Positions(xs, p)|
  {
    if xs == [] then 0
    else
      var init := xs[..|xs| - 1];
      var last: set<int> := if p(xs[|xs| - 1]) then {|xs| - 1} else {};
      assert Positions(xs, p) == Positions(init, p) + last by {
        forall k | 0 <= k < |init| ensures init[k] == xs[k] { }
      }
      assert Positions(init, p) !! last;
      CountIf(init, p) + (if p(xs[|xs| - 1]) then 1 else 0)
  }

  /** The same count, taken from the front. */
  lemma {:induction false} CountIfCons<T>(xs: seq<T>, p: T -> bool)
    requires xs != []
    ensures CountIf(xs, p) == (if p(xs[0]) then 1 else 0) + CountIf(xs[1..], p)
    decreases |xs|
  {
    if |xs| > 1 {
      var init := xs[..|xs| - 1];
      CountIfCons(init, p);
      assert init[1..] == xs[1..][..|xs[1..]| - 1];
      assert init[0] == xs[0];
    }
  }
}
