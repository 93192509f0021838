/**
  What the take-profit allocator guarantees about every text: nothing is overwritten, list prices
  take the least unused levels in text order, and when the numbering is free of gaps.
*/
module TakeProfitTheorems {
  import opened Collections
  import opened TakeProfit

  // ---- which prices ----

  lemma {:induction false} PricesConcat(p: Parser, a: seq<string>, b: seq<string>)
    ensures Prices(p, a + b) == Prices(p, a) + Prices(p, b)
  {
    if b == [] {
      assert a + b == a;
    } else {
      assert (a + b)[..|a + b| - 1] == a + b[..|b| - 1];
      PricesConcat(p, a, b[..|b| - 1]);
    }
  }

  // A list gives its tokens' prices in the order of the tokens: each readable token whose number
  // keeps the symbol's rule, and no other.
  lemma PricesInTokenOrder(p: Parser, before: seq<string>, token: string, after: seq<string>)
    ensures var n := p.parseFloat(token);
            var here := if n.Some? && KeepsRule(p, n.value) then [n.value] else [];
            Prices(p, before + [token] + after) == Prices(p, before) + here + Prices(p, after)
  {
    PricesConcat(p, before + [token], after);
    PricesConcat(p, before, [token]);
    assert Prices(p, [token][..0]) == [];
  }

  lemma {:induction false} ListPricesConcat(p: Parser, a: seq<seq<string>>, b: seq<seq<string>>)
    ensures ListPrices(p, a + b) == ListPrices(p, a) + ListPrices(p, b)
  {
    if b == [] {
      assert a + b == a;
    } else {
      assert (a + b)[..|a + b| - 1] == a + b[..|b| - 1];
      ListPricesConcat(p, a, b[..|b| - 1]);
    }
  }

  // The lists of a text give their prices in the order of the lists.
  lemma PricesInListOrder(p: Parser, before: seq<seq<string>>, list: seq<string>, after: seq<seq<string>>)
    ensures ListPrices(p, before + [list] + after) == ListPrices(p, before) + Prices(p, list) + ListPrices(p, after)
  {
    ListPricesConcat(p, before + [list], after);
    ListPricesConcat(p, before, [list]);
    assert ListPrices(p, [list][..0]) == [];
  }

  // ---- which levels ----

  lemma {:induction false} LevelsPrefix(used: set<nat>, n: nat, i: nat, k: nat)
    requires i < k
    ensures Levels(used, n, k)[..i] == Levels(used, n, i)
    ensures Levels(used, n, k)[i] == NextFree(used, Cursor(used, n, i))
    decreases k
  {
    LevelsOneMore(used, n, k - 1);
    if i < k - 1 {
      LevelsPrefix(used, n, i, k - 1);
      assert Levels(used, n, k)[..i] == Levels(used, n, k - 1)[..i];
    }
  }

  // Between the first candidate level and any level given, everything is used or given earlier.
  ghost predicate LeastFirst(used: set<nat>, n: nat, ls: seq<nat>) {
    forall i, l | 0 <= i < |ls| && n <= l < ls[i] :: l in used || l in ls[..i]
  }

  lemma LevelsAreLeast(used: set<nat>, n: nat, k: nat)
    ensures LeastFirst(used, n, Levels(used, n, k))
  {
    var ls := Levels(used, n, k);
    forall i, l: nat | 0 <= i < k && n <= l < ls[i] ensures l in used || l in ls[..i] {
      LevelsPrefix(used, n, i, k);
      NothingFreeBehindCursor(used, n, i);
    }
  }

  // No indexed level is overwritten, every list price keeps a level of its own, and in text order
  // the prices take the least unused levels behind len, rising across all lists.
  lemma ListsKeepEveryLevel(m: LevelMap, prices: seq<real>) returns (ls: seq<nat>)
    ensures |ls| == |prices| && FreshFrom(m.Keys, |m| + 1, ls) && LeastFirst(m.Keys, |m| + 1, ls)
    ensures var r := Allocated(m, prices);
            && |r| == |m| + |prices|
            && (forall k :: k in r <==> k in m || k in ls)
            && (forall k | k in m :: r[k] == m[k])
            && (forall i | 0 <= i < |ls| :: r[ls[i]] == prices[i])
  {
    ls := Levels(m.Keys, |m| + 1, |prices|);
    LevelsAreFresh(m.Keys, |m| + 1, |prices|);
    LevelsAreLeast(m.Keys, |m| + 1, |prices|);
    AssignKeys(m, ls, prices);
  }

  // ---- gaps ----

  // Levels 1 to n, none missing.
  function UpTo(n: nat): (s: set<nat>)
    ensures |s| == n && forall k :: k in s <==> 1 <= k <= n
  {
    if n == 0 then {} else UpTo(n - 1) + {n}
  }

  lemma {:induction false} SameSizeSubset(a: set<nat>, b: set<nat>)
    requires a <= b && |a| == |b|
    ensures a == b
  {
    if a != b {
      var x :| x in b && x !in a;
      SubsetIsNoLarger(a, b - {x});
    }
  }

  // With nothing used from n on, the least levels are n, n+1, ...
  lemma {:induction false} LeastLevelsAreConsecutive(used: set<nat>, n: nat, ls: seq<nat>, i: nat)
    requires FreshFrom(used, n, ls) && LeastFirst(used, n, ls) && (forall l | l >= n :: l !in used) && i < |ls|
    ensures ls[i] == n + i
  {
    if i > 0 {
      LeastLevelsAreConsecutive(used, n, ls, i - 1);
      assert forall j | 0 <= j < i :: ls[j] <= ls[i - 1] < n + i;
    }
    var l, given := n + i, ls[..i];
    assert l < ls[i] ==> l in used || l in given;
  }

  // m indexed levels and t list prices are numbered 1 to m + t without a gap exactly when the
  // indexed ones alone are numbered 1 to m.
  lemma NoGapExactlyWhen(m: LevelMap, prices: seq<real>)
    ensures Allocated(m, prices).Keys == UpTo(|m| + |prices|) <==> m.Keys == UpTo(|m|)
  {
    var r, n := Allocated(m, prices), |m| + 1;
    var ls := ListsKeepEveryLevel(m, prices);
    if r.Keys == UpTo(|m| + |prices|) {
      assert forall k | k in UpTo(|m|) :: k in r && k !in ls;
      assert |m.Keys| == |m|;
      SameSizeSubset(UpTo(|m|), m.Keys);
    } else if m.Keys == UpTo(|m|) {
      assert false by {
        forall i | 0 <= i < |ls| ensures ls[i] == n + i { LeastLevelsAreConsecutive(m.Keys, n, ls, i); }
        forall k ensures k in r.Keys <==> k in UpTo(|m| + |prices|) {
          if n <= k <= |m| + |prices| { assert ls[k - n] == k; }
        }
      }
    }
  }

  // ---- a text without indexed levels ----

  lemma {:induction false} RisingFromOne(levels: seq<Level>, m: LevelMap, n: nat, i: nat)
    requires Lists(levels, m) && m.Keys == UpTo(n) && i < n
    ensures i < |levels| && levels[i].level == i + 1
  {
    if i > 0 { RisingFromOne(levels, m, n, i - 1); }
    assert i + 1 in m;
    var j :| 0 <= j < |levels| && levels[j] == Level(i + 1, m[i + 1]);
    if j < i { RisingFromOne(levels, m, n, j); }
  }

  // m has the prices at 1, 2, and so on, and nothing else.
  ghost predicate NumberedFromOne(m: LevelMap, prices: seq<real>) {
    m.Keys == UpTo(|prices|) && forall i | 0 <= i < |prices| :: m[i + 1] == prices[i]
  }

  lemma KeysFromOne(none: LevelMap, prices: seq<real>)
    requires none == map[]
    ensures Allocated(none, prices).Keys == UpTo(|prices|)
  {
    NoGapExactlyWhen(none, prices);
    assert none.Keys == UpTo(0);
  }

  lemma PriceFromOne(none: LevelMap, prices: seq<real>, i: nat)
    requires none == map[] && i < |prices|
    ensures i + 1 in Allocated(none, prices) && Allocated(none, prices)[i + 1] == prices[i]
  {
    var ls := ListsKeepEveryLevel(none, prices);
    LeastLevelsAreConsecutive(none.Keys, 1, ls, i);
  }

  lemma GivenFromOne(none: LevelMap, prices: seq<real>)
    requires none == map[]
    ensures NumberedFromOne(Allocated(none, prices), prices)
  {
    KeysFromOne(none, prices);
    forall i | 0 <= i < |prices| ensures Allocated(none, prices)[i + 1] == prices[i] { PriceFromOne(none, prices, i); }
  }

  lemma NothingElseListed(levels: seq<Level>, m: LevelMap, n: nat)
    requires Lists(levels, m) && m.Keys == UpTo(n)
    ensures |levels| <= n
  {
    if |levels| > n {
      assert levels[n] in levels;
      if n > 0 { RisingFromOne(levels, m, n, n - 1); }
    }
  }

  lemma ListedFromOne(levels: seq<Level>, m: LevelMap, prices: seq<real>)
    requires Lists(levels, m) && NumberedFromOne(m, prices)
    ensures |levels| == |prices| && forall i | 0 <= i < |prices| :: levels[i] == Level(i + 1, prices[i])
  {
    var n := |prices|;
    NothingElseListed(levels, m, n);
    if n > 0 { RisingFromOne(levels, m, n, n - 1); }
    forall i | 0 <= i < n ensures levels[i] == Level(i + 1, prices[i]) {
      RisingFromOne(levels, m, n, i);
      assert levels[i] in levels;
    }
  }

  // A text that only lists prices is answered with exactly its prices, numbered from one on in the
  // order of the text.
  lemma PlainListsAreNumberedFromOne(p: Parser, lists: seq<seq<string>>, levels: seq<Level>)
    requires Lists(levels, Allocated(AfterIndexed(p, []), ListPrices(p, lists)))
    ensures var prices := ListPrices(p, lists);
            |levels| == |prices| && forall i | 0 <= i < |prices| :: levels[i] == Level(i + 1, prices[i])
  {
    GivenFromOne(AfterIndexed(p, []), ListPrices(p, lists));
    ListedFromOne(levels, Allocated(AfterIndexed(p, []), ListPrices(p, lists)), ListPrices(p, lists));
  }
}
