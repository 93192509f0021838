/** Sums, counts, permutations and sorting over sequences. */
module Sequences {

  function SumOf<T>(f: T -> real, xs: seq<T>): real {
    if xs == [] then 0.0 else SumOf(f, xs[..|xs| - 1]) + f(xs[|xs| - 1])
  }

  function CountOf<T>(p: T -> bool, xs: seq<T>): nat {
    if xs == [] then 0 else CountOf(p, xs[..|xs| - 1]) + if p(xs[|xs| - 1]) then 1 else 0
  }

  function Map<T, U>(f: T -> U, xs: seq<T>): (ys: seq<U>)
    ensures |ys| == |xs| && forall i | 0 <= i < |xs| :: ys[i] == f(xs[i])
  {
    if xs == [] then [] else Map(f, xs[..|xs| - 1]) + [f(xs[|xs| - 1])]
  }

  function Itself(x: real): real { x }

  lemma {:induction false} SumConcat<T>(f: T -> real, a: seq<T>, b: seq<T>)
    ensures SumOf(f, a + b) == SumOf(f, a) + SumOf(f, b)
  {
    if b == [] {
      assert a + b == a;
    } else {
      assert (a + b)[..|a + b| - 1] == a + b[..|b| - 1];
      SumConcat(f, a, b[..|b| - 1]);
    }
  }

  lemma {:induction false} CountConcat<T>(p: T -> bool, a: seq<T>, b: seq<T>)
    ensures CountOf(p, a + b) == CountOf(p, a) + CountOf(p, b)
  {
    if b == [] {
      assert a + b == a;
    } else {
      assert (a + b)[..|a + b| - 1] == a + b[..|b| - 1];
      CountConcat(p, a, b[..|b| - 1]);
    }
  }

  lemma OneElement<T>(f: T -> real, p: T -> bool, x: T)
    ensures SumOf(f, [x]) == f(x) && CountOf(p, [x]) == if p(x) then 1 else 0
  {
    assert [x][..0] == [];
  }

  // A count is the number of positions counted.
  lemma {:induction false} CountIsCardinality<T>(p: T -> bool, xs: seq<T>, at: set<int>)
    requires forall i :: i in at <==> 0 <= i < |xs| && p(xs[i])
    ensures CountOf(p, xs) == |at|
  {
    var n := |xs| - 1;
    if xs == [] {
      assert forall i: int :: i !in at;
      assert at == {};
    } else {
      CountIsCardinality(p, xs[..n], at - {n});
    }
  }

  predicate Permutation<T(==)>(xs: seq<T>, ys: seq<T>) { multiset(xs) == multiset(ys) }

  lemma Without<T>(l: seq<T>, x: T, r: seq<T>)
    ensures multiset(l + r) == multiset(l + [x] + r) - multiset{x}
  {
    assert multiset(l + [x] + r) == multiset(l) + multiset{x} + multiset(r);
  }

  // Where the last element of xs sits in its permutation ys, and what remains without it.
  lemma SplitAtLast<T>(xs: seq<T>, ys: seq<T>) returns (l: seq<T>, r: seq<T>)
    requires xs != [] && Permutation(xs, ys)
    ensures ys == l + [xs[|xs| - 1]] + r && Permutation(xs[..|xs| - 1], l + r)
  {
    var x := xs[|xs| - 1];
    assert xs == xs[..|xs| - 1] + [x];
    assert x in multiset(ys);
    var i :| 0 <= i < |ys| && ys[i] == x;
    l, r := ys[..i], ys[i + 1..];
    assert ys == l + [x] + r;
    Without(l, x, r);
    Without(xs[..|xs| - 1], x, []);
    assert xs[..|xs| - 1] + [] == xs[..|xs| - 1] && xs[..|xs| - 1] + [x] + [] == xs;
  }

  lemma {:induction false} SumPermutes<T>(f: T -> real, xs: seq<T>, ys: seq<T>)
    requires Permutation(xs, ys)
    ensures SumOf(f, xs) == SumOf(f, ys)
    decreases |xs|
  {
    if xs == [] {
      assert |multiset(ys)| == 0;
    } else {
      var l, r := SplitAtLast(xs, ys);
      SumPermutes(f, xs[..|xs| - 1], l + r);
      SumConcat(f, l, r);
      SumConcat(f, l + [xs[|xs| - 1]], r);
      SumConcat(f, l, [xs[|xs| - 1]]);
    }
  }

  lemma {:induction false} CountPermutes<T>(p: T -> bool, xs: seq<T>, ys: seq<T>)
    requires Permutation(xs, ys)
    ensures CountOf(p, xs) == CountOf(p, ys)
    decreases |xs|
  {
    if xs == [] {
      assert |multiset(ys)| == 0;
    } else {
      var l, r := SplitAtLast(xs, ys);
      CountPermutes(p, xs[..|xs| - 1], l + r);
      CountConcat(p, l, r);
      CountConcat(p, l + [xs[|xs| - 1]], r);
      CountConcat(p, l, [xs[|xs| - 1]]);
    }
  }

  lemma MapSplits<T, U>(f: T -> U, l: seq<T>, x: T, r: seq<T>)
    ensures Map(f, l + [x] + r) == Map(f, l) + [f(x)] + Map(f, r)
    ensures Map(f, l + r) == Map(f, l) + Map(f, r)
  {
  }

  lemma {:induction false} MapPermutes<T, U>(f: T -> U, xs: seq<T>, ys: seq<T>)
    requires Permutation(xs, ys)
    ensures Permutation(Map(f, xs), Map(f, ys))
    decreases |xs|
  {
    if xs == [] {
      assert |multiset(ys)| == 0;
    } else {
      var init, x := xs[..|xs| - 1], xs[|xs| - 1];
      var l, r := SplitAtLast(xs, ys);
      MapPermutes(f, init, l + r);
      MapSplits(f, l, x, r);
      Without(Map(f, l), f(x), Map(f, r));
      assert multiset(Map(f, xs)) == multiset(Map(f, init)) + multiset{f(x)};
      assert f(x) in Map(f, ys);
    }
  }

  // ---- sorting by a key ----

  ghost predicate SortedBy<T>(key: T -> real, xs: seq<T>) {
    forall i, j | 0 <= i < j < |xs| :: key(xs[i]) <= key(xs[j])
  }

  ghost predicate SortedPermutation<T>(key: T -> real, xs: seq<T>, of: seq<T>) {
    SortedBy(key, xs) && Permutation(of, xs)
  }

  // Elements the key cannot tell apart are equal.
  ghost predicate KeyDetermines<T>(key: T -> real, xs: seq<T>) {
    forall i, j | 0 <= i < |xs| && 0 <= j < |xs| && key(xs[i]) == key(xs[j]) :: xs[i] == xs[j]
  }

  lemma FirstAgrees<T>(key: T -> real, xs: seq<T>, ys: seq<T>)
    requires SortedBy(key, xs) && SortedBy(key, ys) && Permutation(xs, ys) && KeyDetermines(key, xs)
    requires xs != [] && ys != []
    ensures xs[0] == ys[0]
  {
    assert xs[0] in multiset(ys) && ys[0] in multiset(xs);
    var i :| 0 <= i < |ys| && ys[i] == xs[0];
    var j :| 0 <= j < |xs| && xs[j] == ys[0];
    assert key(ys[0]) <= key(ys[i]) && key(xs[0]) <= key(xs[j]);
  }

  lemma TailOf<T>(xs: seq<T>)
    requires xs != []
    ensures multiset(xs[1..]) == multiset(xs) - multiset{xs[0]}
  {
    assert xs == [xs[0]] + xs[1..];
  }

  lemma TailPermutes<T>(xs: seq<T>, ys: seq<T>)
    requires Permutation(xs, ys) && xs != [] && ys != [] && xs[0] == ys[0]
    ensures Permutation(xs[1..], ys[1..])
  {
    TailOf(xs);
    TailOf(ys);
  }

  // Whatever sort is used, stable or not, there is only one result when the key tells elements apart.
  lemma {:induction false} SortIsUnique<T>(key: T -> real, xs: seq<T>, ys: seq<T>)
    requires SortedBy(key, xs) && SortedBy(key, ys) && Permutation(xs, ys) && KeyDetermines(key, xs)
    ensures xs == ys
    decreases |xs|
  {
    assert |multiset(xs)| == |xs| && |multiset(ys)| == |ys|;
    if xs != [] {
      FirstAgrees(key, xs, ys);
      TailPermutes(xs, ys);
      SortIsUnique(key, xs[1..], ys[1..]);
      assert xs == [xs[0]] + xs[1..] && ys == [ys[0]] + ys[1..];
    }
  }

  function InsertSorted<T(!new)>(key: T -> real, x: T, xs: seq<T>): seq<T> {
    if xs == [] || key(xs[|xs| - 1]) <= key(x) then xs + [x]
    else InsertSorted(key, x, xs[..|xs| - 1]) + [xs[|xs| - 1]]
  }

  function Sorted<T(!new)>(key: T -> real, xs: seq<T>): seq<T> {
    if xs == [] then [] else InsertSorted(key, xs[|xs| - 1], Sorted(key, xs[..|xs| - 1]))
  }

  lemma {:induction false} InsertPermutes<T(!new)>(key: T -> real, x: T, xs: seq<T>)
    ensures multiset(InsertSorted(key, x, xs)) == multiset(xs) + multiset{x}
  {
    if xs != [] && key(xs[|xs| - 1]) > key(x) {
      InsertPermutes(key, x, xs[..|xs| - 1]);
      assert xs == xs[..|xs| - 1] + [xs[|xs| - 1]];
    }
  }

  lemma {:induction false} InsertKeepsOrder<T(!new)>(key: T -> real, x: T, xs: seq<T>)
    requires SortedBy(key, xs)
    ensures SortedBy(key, InsertSorted(key, x, xs))
  {
    if xs != [] && key(xs[|xs| - 1]) > key(x) {
      var init, ins := xs[..|xs| - 1], InsertSorted(key, x, xs[..|xs| - 1]);
      InsertKeepsOrder(key, x, init);
      InsertPermutes(key, x, init);
      forall i | 0 <= i < |ins| ensures key(ins[i]) <= key(xs[|xs| - 1]) {
        assert ins[i] in multiset(ins);
        assert ins[i] == x || ins[i] in init;
      }
    }
  }

  lemma {:induction false} SortedOk<T(!new)>(key: T -> real, xs: seq<T>)
    ensures SortedPermutation(key, Sorted(key, xs), xs)
  {
    if xs != [] {
      SortedOk(key, xs[..|xs| - 1]);
      InsertKeepsOrder(key, xs[|xs| - 1], Sorted(key, xs[..|xs| - 1]));
      InsertPermutes(key, xs[|xs| - 1], Sorted(key, xs[..|xs| - 1]));
      assert xs == xs[..|xs| - 1] + [xs[|xs| - 1]];
    }
  }
}
