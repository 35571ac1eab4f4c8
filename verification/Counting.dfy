/** Counting arguments on finite sets of naturals. */
module Counting {

  /** n distinct values below n leave none out. */
  lemma Pigeonhole(s: seq<nat>, n: nat, v: nat)
    requires |s| == n && v < n
    requires forall i: nat :: i < n ==> s[i] < n
    requires forall i: nat, j: nat :: i < j < n ==> s[i] != s[j]
    ensures v in s
  {
    DistinctCount(s);
    if v !in s {
      assert Elements(s) <= Below(n) - {v};
      SubsetCount(Elements(s), Below(n) - {v});
    }
  }

  function Elements(s: seq<nat>): set<nat>
  {
    set x | x in s
  }

  function Below(n: nat): (s: set<nat>)
    ensures |s| == n && forall v: nat :: v in s <==> v < n
  {
    if n == 0 then {} else Below(n - 1) + {n - 1}
  }

  lemma {:induction false} DistinctCount(s: seq<nat>)
    requires forall i: nat, j: nat :: i < j < |s| ==> s[i] != s[j]
    ensures |Elements(s)| == |s|
  {
    if s == [] {
    } else {
      var front, last := s[..|s| - 1], s[|s| - 1];
      DistinctCount(front);
      assert s == front + [last];
      assert Elements(s) == Elements(front) + {last};
      assert last !in front;
    }
  }

  lemma {:induction false} SubsetCount(a: set<nat>, b: set<nat>)
    requires a <= b
    ensures |a| <= |b|
    decreases a
  {
    if a == {} {
    } else {
      var x :| x in a;
      SubsetCount(a - {x}, b - {x});
    }
  }
}
