/** Array.prototype.sort with a comparator `(a, b) => key(b) - key(a)`:
    ECMAScript requires the sort to be stable, so the result is ordered by
    non-increasing key and elements with equal keys keep their input
    order. Modelled as an insertion sort. */
module StableSort {

  /** The elements of xs whose key is v, in their order in xs. */
  function WithKey<T>(xs: seq<T>, key: T -> int, v: int): seq<T> {
    if xs == [] then []
    else (if key(xs[0]) == v then [xs[0]] else []) + WithKey(xs[1..], key, v)
  }

  ghost predicate NonIncreasing<T>(xs: seq<T>, key: T -> int) {
    forall i, j :: 0 <= i < j < |xs| ==> key(xs[i]) >= key(xs[j])
  }

  /** Inserts x in front of the first element with a smaller key. */
  function Insert<T>(x: T, ys: seq<T>, key: T -> int): seq<T> {
    if ys == [] || key(x) >= key(ys[0]) then [x] + ys
    else [ys[0]] + Insert(x, ys[1..], key)
  }

  function SortDesc<T>(xs: seq<T>, key: T -> int): seq<T> {
    if xs == [] then [] else Insert(xs[0], SortDesc(xs[1..], key), key)
  }

  function MapSeq<A, B>(xs: seq<A>, f: A -> B): (r: seq<B>)
    ensures |r| == |xs|
    ensures forall i :: 0 <= i < |xs| ==> r[i] == f(xs[i])
  {
    seq(|xs|, i requires 0 <= i < |xs| => f(xs[i]))
  }

  lemma {:induction false} InsertPermutes<T>(x: T, ys: seq<T>, key: T -> int)
    ensures multiset(Insert(x, ys, key)) == multiset(ys) + multiset{x}
  {
    if ys != [] && key(x) < key(ys[0]) {
      InsertPermutes(x, ys[1..], key);
      assert ys == [ys[0]] + ys[1..];
    }
  }

  /** The sort neither drops, duplicates nor invents an element. */
  lemma {:induction false} SortDescPermutes<T>(xs: seq<T>, key: T -> int)
    ensures multiset(SortDesc(xs, key)) == multiset(xs)
  {
    if xs != [] {
      SortDescPermutes(xs[1..], key);
      InsertPermutes(xs[0], SortDesc(xs[1..], key), key);
      assert xs == [xs[0]] + xs[1..];
    }
  }

  lemma {:induction false} InsertSorted<T>(x: T, ys: seq<T>, key: T -> int)
    requires NonIncreasing(ys, key)
    ensures NonIncreasing(Insert(x, ys, key), key)
    ensures |Insert(x, ys, key)| == |ys| + 1
    ensures Insert(x, ys, key)[0] == x || (ys != [] && Insert(x, ys, key)[0] == ys[0])
  {
    if ys != [] && key(x) < key(ys[0]) {
      InsertSorted(x, ys[1..], key);
    }
  }

  /** The result is ordered by non-increasing key. */
  lemma {:induction false} SortDescSorted<T>(xs: seq<T>, key: T -> int)
    ensures NonIncreasing(SortDesc(xs, key), key)
    ensures |SortDesc(xs, key)| == |xs|
  {
    if xs != [] {
      SortDescSorted(xs[1..], key);
      InsertSorted(xs[0], SortDesc(xs[1..], key), key);
    }
  }

  lemma {:induction false} InsertWithKey<T>(x: T, ys: seq<T>, key: T -> int, v: int)
    ensures WithKey(Insert(x, ys, key), key, v)
         == (if key(x) == v then [x] else []) + WithKey(ys, key, v)
  {
    var xs := if key(x) == v then [x] else [];
    if ys == [] || key(x) >= key(ys[0]) {
      assert ([x] + ys)[1..] == ys;
      assert WithKey([x] + ys, key, v) == xs + WithKey(ys, key, v);
    } else {
      var rest := Insert(x, ys[1..], key);
      var head := if key(ys[0]) == v then [ys[0]] else [];
      InsertWithKey(x, ys[1..], key, v);
      assert ([ys[0]] + rest)[1..] == rest;
      assert WithKey([ys[0]] + rest, key, v) == head + WithKey(rest, key, v);
      assert WithKey(ys, key, v) == head + WithKey(ys[1..], key, v);
      assert xs == [] || head == [];
      assert head + (xs + WithKey(ys[1..], key, v)) == xs + (head + WithKey(ys[1..], key, v));
    }
  }

  /** Stability: for every key value, the elements carrying it appear in
      the result in the same order as in the input. */
  lemma {:induction false} SortDescStable<T>(xs: seq<T>, key: T -> int, v: int)
    ensures WithKey(SortDesc(xs, key), key, v) == WithKey(xs, key, v)
  {
    if xs != [] {
      SortDescStable(xs[1..], key, v);
      InsertWithKey(xs[0], SortDesc(xs[1..], key), key, v);
    }
  }

  /** An input that is already in order is returned unchanged. */
  lemma {:induction false} SortDescOfSorted<T>(xs: seq<T>, key: T -> int)
    requires NonIncreasing(xs, key)
    ensures SortDesc(xs, key) == xs
  {
    if xs != [] {
      assert NonIncreasing(xs[1..], key);
      SortDescOfSorted(xs[1..], key);
      assert xs == [xs[0]] + xs[1..];
    }
  }

  lemma {:induction false} InsertMap<A, B>(x: A, ys: seq<A>, ka: A -> int, f: A -> B, kb: B -> int)
    requires ka(x) == kb(f(x))
    requires forall i :: 0 <= i < |ys| ==> ka(ys[i]) == kb(f(ys[i]))
    ensures MapSeq(Insert(x, ys, ka), f) == Insert(f(x), MapSeq(ys, f), kb)
  {
    if ys != [] && ka(x) < ka(ys[0]) {
      InsertMap(x, ys[1..], ka, f, kb);
      assert MapSeq(ys, f)[1..] == MapSeq(ys[1..], f);
    }
  }

  /** Sorting a list of pairs by a stored key and then projecting is the
      same as projecting and then sorting by the key the pair stored. */
  lemma {:induction false} MapSortDesc<A, B>(xs: seq<A>, ka: A -> int, f: A -> B, kb: B -> int)
    requires forall i :: 0 <= i < |xs| ==> ka(xs[i]) == kb(f(xs[i]))
    ensures MapSeq(SortDesc(xs, ka), f) == SortDesc(MapSeq(xs, f), kb)
  {
    if xs != [] {
      MapSortDesc(xs[1..], ka, f, kb);
      var s := SortDesc(xs[1..], ka);
      SortDescPermutes(xs[1..], ka);
      forall i | 0 <= i < |s|
        ensures ka(s[i]) == kb(f(s[i]))
      {
        assert s[i] in multiset(s);
        assert s[i] in multiset(xs[1..]);
        var j :| 0 <= j < |xs[1..]| && xs[1..][j] == s[i];
      }
      InsertMap(xs[0], s, ka, f, kb);
      assert MapSeq(xs, f)[1..] == MapSeq(xs[1..], f);
    }
  }
}
