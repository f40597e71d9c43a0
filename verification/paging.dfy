/**
 * `Paginate(set)` without a size: the first page of an index's references,
 * which the store orders by reference.
 */
module Paging {

  /** The number of entries `Paginate` returns when no size is given. */
  const DefaultPageSize: nat := 64

  /** The smallest reference of a non-empty set. */
  ghost function Least(refs: set<nat>): (m: nat)
    requires refs != {}
    ensures m in refs && forall y :: y in refs ==> m <= y
    decreases refs
  {
    var x :| x in refs;
    if refs == {x} then
      assert forall y :: y in refs ==> y == x;
      x
    else
      var rest := Least(refs - {x});
      assert forall y :: y in refs ==> y == x || y in refs - {x};
      if x < rest then x else rest
  }

  /** The first page of `refs`: its `size` smallest references, or all of them when there are fewer. */
  ghost function FirstPage(refs: set<nat>, size: nat): (page: set<nat>)
    ensures page <= refs
    ensures |page| == if |refs| < size then |refs| else size
    ensures forall a, b :: a in page && b in refs - page ==> a < b
    decreases size
  {
    if size == 0 || refs == {} then {}
    else
      var m := Least(refs);
      var rest := FirstPage(refs - {m}, size - 1);
      assert |refs - {m}| == |refs| - 1;
      assert m !in rest;
      var page := {m} + rest;
      forall a, b | a in page && b in refs - page
        ensures a < b
      {
        if a != m {
          assert b in (refs - {m}) - rest;
        }
      }
      page
  }

  /** A set that fits on one page is its own first page. */
  lemma {:induction false} FirstPageOfSmallSet(refs: set<nat>, size: nat)
    requires |refs| <= size
    ensures FirstPage(refs, size) == refs
  {
    var page := FirstPage(refs, size);
    if page != refs {
      var x :| x in refs && x !in page;
      SubsetSize(page, refs - {x});
    }
  }

  lemma {:induction false} SubsetSize(a: set<nat>, b: set<nat>)
    requires a <= b
    ensures |a| <= |b|
    decreases b
  {
    if a != {} {
      var x :| x in a;
      SubsetSize(a - {x}, b - {x});
    }
  }

  /** A set larger than a page keeps some reference off the first page. */
  lemma FirstPageLeavesSome(refs: set<nat>, size: nat)
    requires |refs| > size
    ensures refs - FirstPage(refs, size) != {}
  {
    var page := FirstPage(refs, size);
    assert refs == page + (refs - page);
  }
}
