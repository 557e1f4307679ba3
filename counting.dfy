/**
  Counting the elements of a sequence that satisfy a test: the shape shared by
  every tally in the scripts (`count += 1` inside `for c in contours: if ...`).
  The count is defined over the prefix, element by element, exactly as a loop
  that walks the sequence from the front builds it.
*/
module Counting {

  /** Number of elements of `s` for which `p` holds. */
  function CountIf<T>(s: seq<T>, p: T -> bool): (n: nat)
    ensures n <= |s|
  {
    if s == [] then 0
    else CountIf(s[..|s| - 1], p) + (if p(s[|s| - 1]) then 1 else 0)
  }

  /** Extending the walked prefix by one element adds one exactly when that element passes. */
  lemma CountIfSnoc<T>(s: seq<T>, i: nat, p: T -> bool)
    requires i < |s|
    ensures CountIf(s[..i + 1], p) == CountIf(s[..i], p) + (if p(s[i]) then 1 else 0)
  {
    assert s[..i + 1][..i] == s[..i];
  }

  /** Counting distributes over concatenation. */
  lemma {:induction false} CountIfAppend<T>(a: seq<T>, b: seq<T>, p: T -> bool)
    ensures CountIf(a + b, p) == CountIf(a, p) + CountIf(b, p)
  {
    if b == [] {
      assert a + b == a;
    } else {
      var b' := b[..|b| - 1];
      assert (a + b)[..|a + b| - 1] == a + b';
      CountIfAppend(a, b', p);
    }
  }

  /** A test that is implied by another test counts at least as many elements. */
  lemma {:induction false} CountIfMonotone<T>(s: seq<T>, p: T -> bool, q: T -> bool)
    requires forall x :: x in s && p(x) ==> q(x)
    ensures CountIf(s, p) <= CountIf(s, q)
  {
    if s != [] {
      var s' := s[..|s| - 1];
      assert forall x :: x in s' ==> x in s;
      CountIfMonotone(s', p, q);
    }
  }

  /** The positions of `s` whose element passes `p`. */
  function Positions<T>(s: seq<T>, p: T -> bool): set<int> {
    set i | 0 <= i < |s| && p(s[i])
  }

  /** The recursive count is the size of the set of positions that pass. */
  lemma {:induction false} CountIfIsCardinality<T>(s: seq<T>, p: T -> bool)
    ensures CountIf(s, p) == |Positions(s, p)|
  {
    if s != [] {
      var n := |s| - 1;
      var s' := s[..n];
      CountIfIsCardinality(s', p);
      var before := Positions(s', p);
      var all := Positions(s, p);
      assert n !in before;
      if p(s[n]) {
        assert all == before + {n};
      } else {
        assert all == before;
      }
    }
  }
}
