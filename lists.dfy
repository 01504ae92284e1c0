/** Array.prototype.filter and Array.prototype.slice(0, end), the two list
    operations the query handlers chain after their predicates. */
module Lists {

  /** The elements of xs that satisfy p, in their order in xs. */
  function Filter<T>(xs: seq<T>, p: T -> bool): (r: seq<T>)
    ensures |r| <= |xs|
    ensures forall i :: 0 <= i < |r| ==> p(r[i])
  {
    if xs == [] then []
    else
      var last := xs[|xs| - 1];
      Filter(xs[..|xs| - 1], p) + (if p(last) then [last] else [])
  }

  /** filter keeps exactly the elements that satisfy the predicate, each as
      often as it occurs in the input. */
  lemma {:induction false} FilterCounts<T>(xs: seq<T>, p: T -> bool)
    ensures forall x :: multiset(Filter(xs, p))[x] == (if p(x) then multiset(xs)[x] else 0)
  {
    if xs != [] {
      var init := xs[..|xs| - 1];
      FilterCounts(init, p);
      assert xs == init + [xs[|xs| - 1]];
    }
  }

  lemma FilterMembers<T>(xs: seq<T>, p: T -> bool)
    ensures forall x :: x in Filter(xs, p) <==> x in xs && p(x)
  {
    FilterCounts(xs, p);
    forall x
      ensures x in Filter(xs, p) <==> x in xs && p(x)
    {
      assert x in Filter(xs, p) <==> x in multiset(Filter(xs, p));
      assert x in xs <==> x in multiset(xs);
    }
  }

  /** A list every element of which satisfies p comes back unchanged. */
  lemma {:induction false} FilterAll<T>(xs: seq<T>, p: T -> bool)
    requires forall i :: 0 <= i < |xs| ==> p(xs[i])
    ensures Filter(xs, p) == xs
  {
    if xs != [] {
      FilterAll(xs[..|xs| - 1], p);
    }
  }

  /** The index slice(0, end) stops at: a negative end counts from the back,
      and the result is clamped to the list. */
  function SliceEnd(len: nat, end: int): (k: nat)
    ensures k <= len
    ensures 0 <= end ==> k == (if end <= len then end else len)
    ensures end < 0 ==> k == (if len + end >= 0 then len + end else 0)
  {
    if end < 0 then (if len + end >= 0 then len + end else 0)
    else if end <= len then end
    else len
  }

  /** slice(0, end). */
  function Take<T>(xs: seq<T>, end: int): (r: seq<T>)
    ensures |r| <= |xs| && r == xs[..|r|]
    ensures end >= 0 ==> |r| == (if end <= |xs| then end else |xs|)
  {
    xs[..SliceEnd(|xs|, end)]
  }
}
