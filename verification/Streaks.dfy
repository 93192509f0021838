/**
  Win rate, streaks and value at risk (metrics.go, risk.go).
*/
module Streaks {
  import opened Arithmetic
  import opened Metrics
  import opened Options
  import opened Sequences

  predicate IsLosing(t: Trade) { t.rr <= 0.0 }

  // Every trade in [i, j) satisfies p.
  ghost predicate Block(p: Trade -> bool, trades: seq<Trade>, i: int, j: int) {
    0 <= i <= j <= |trades| && forall k | i <= k < j :: p(trades[k])
  }

  // n is the length of the longest contiguous block.
  ghost predicate LongestStreak(p: Trade -> bool, trades: seq<Trade>, n: int) {
    && (exists i, j :: Block(p, trades, i, j) && j - i == n)
    && (forall i, j | Block(p, trades, i, j) :: j - i <= n)
  }

  // The streak that ends with the last trade starts at i.
  ghost predicate OpenStreak(p: Trade -> bool, trades: seq<Trade>, i: int) {
    Block(p, trades, i, |trades|) && (i > 0 ==> !p(trades[i - 1]))
  }

  // The share of trades with a positive reward, in percent.
  ghost predicate IsWinRate(trades: seq<Trade>, rate: real) {
    rate * |trades| as real == 100.0 * |set i | 0 <= i < |trades| && trades[i].rr > 0.0| as real
  }

  lemma WinRateInNumbers(trades: seq<Trade>)
    requires trades != []
    ensures IsWinRate(trades, CountOf(IsWin, trades) as real / |trades| as real * 100.0)
  {
    var wins := set i | 0 <= i < |trades| && trades[i].rr > 0.0;
    CountIsCardinality(IsWin, trades, wins);
    QuotientTimes(|wins| as real, |trades| as real);
  }

  method CalculateWinRate(trades: seq<Trade>) returns (rate: real)
    ensures trades == [] ==> rate == 0.0
    ensures trades != [] ==> IsWinRate(trades, rate)
  {
    if |trades| == 0 { return 0.0; }
    WinRateInNumbers(trades);
    var wins := 0;
    for i := 0 to |trades|
      invariant wins == CountOf(IsWin, trades[..i])
    {
      if trades[i].rr > 0.0 { wins := wins + 1; }
      assert trades[..i + 1][..i] == trades[..i];
    }
    assert trades[..|trades|] == trades;
    return wins as real / |trades| as real * 100.0;
  }

  // The trades of [i, j) all won, or all did not.
  ghost predicate AllWon(trades: seq<Trade>, i: int, j: int) {
    0 <= i <= j <= |trades| && forall k | i <= k < j :: trades[k].rr > 0.0
  }

  ghost predicate NoneWon(trades: seq<Trade>, i: int, j: int) {
    0 <= i <= j <= |trades| && forall k | i <= k < j :: trades[k].rr <= 0.0
  }

  lemma WinsInNumbers(trades: seq<Trade>, n: int)
    requires LongestStreak(IsWin, trades, n)
    ensures (exists i, j :: AllWon(trades, i, j) && j - i == n) && forall i, j | AllWon(trades, i, j) :: j - i <= n
  {
    var i, j :| Block(IsWin, trades, i, j) && j - i == n;
    assert AllWon(trades, i, j);
    forall i, j | AllWon(trades, i, j) ensures j - i <= n { assert Block(IsWin, trades, i, j); }
  }

  lemma LossesInNumbers(trades: seq<Trade>, n: int)
    requires LongestStreak(IsLosing, trades, n)
    ensures (exists i, j :: NoneWon(trades, i, j) && j - i == n) && forall i, j | NoneWon(trades, i, j) :: j - i <= n
  {
    var i, j :| Block(IsLosing, trades, i, j) && j - i == n;
    assert NoneWon(trades, i, j);
    forall i, j | NoneWon(trades, i, j) ensures j - i <= n { assert Block(IsLosing, trades, i, j); }
  }

  lemma StreakGrows(p: Trade -> bool, before: seq<Trade>, t: Trade, longest: int, start: int)
    requires LongestStreak(p, before, longest) && OpenStreak(p, before, start)
    ensures var after := before + [t];
            var start' := if p(t) then start else |after|;
            && OpenStreak(p, after, start')
            && LongestStreak(p, after, if |after| - start' > longest then |after| - start' else longest)
  {
    var after := before + [t];
    var start' := if p(t) then start else |after|;
    var a, b :| Block(p, before, a, b) && b - a == longest;
    assert forall k | 0 <= k < |before| :: after[k] == before[k];
    assert Block(p, after, a, b) && Block(p, after, start', |after|);
    assert start' > 0 ==> !p(after[start' - 1]);
    forall i, j | Block(p, after, i, j)
      ensures j - i <= if |after| - start' > longest then |after| - start' else longest
    {
      if j < |after| {
        assert Block(p, before, i, j);
      }
    }
  }

  method CalculateConsecutiveWins(trades: seq<Trade>) returns (maxStreak: int)
    ensures LongestStreak(IsWin, trades, maxStreak)
    ensures exists i, j :: AllWon(trades, i, j) && j - i == maxStreak
    ensures forall i, j | AllWon(trades, i, j) :: j - i <= maxStreak
  {
    maxStreak := 0;
    var currentStreak := 0;
    assert Block(IsWin, trades[..0], 0, 0);
    for i := 0 to |trades|
      invariant 0 <= currentStreak <= i
      invariant LongestStreak(IsWin, trades[..i], maxStreak) && OpenStreak(IsWin, trades[..i], i - currentStreak)
    {
      StreakGrows(IsWin, trades[..i], trades[i], maxStreak, i - currentStreak);
      assert trades[..i + 1] == trades[..i] + [trades[i]];
      if trades[i].rr > 0.0 {
        currentStreak := currentStreak + 1;
        if currentStreak > maxStreak { maxStreak := currentStreak; }
      } else {
        currentStreak := 0;
      }
    }
    assert trades[..|trades|] == trades;
    WinsInNumbers(trades, maxStreak);
  }

  method CalculateConsecutiveLosses(trades: seq<Trade>) returns (maxStreak: int)
    ensures LongestStreak(IsLosing, trades, maxStreak)
    ensures exists i, j :: NoneWon(trades, i, j) && j - i == maxStreak
    ensures forall i, j | NoneWon(trades, i, j) :: j - i <= maxStreak
  {
    maxStreak := 0;
    var currentStreak := 0;
    assert Block(IsLosing, trades[..0], 0, 0);
    for i := 0 to |trades|
      invariant 0 <= currentStreak <= i
      invariant LongestStreak(IsLosing, trades[..i], maxStreak) && OpenStreak(IsLosing, trades[..i], i - currentStreak)
    {
      StreakGrows(IsLosing, trades[..i], trades[i], maxStreak, i - currentStreak);
      assert trades[..i + 1] == trades[..i] + [trades[i]];
      if trades[i].rr <= 0.0 {
        currentStreak := currentStreak + 1;
        if currentStreak > maxStreak { maxStreak := currentStreak; }
      } else {
        currentStreak := 0;
      }
    }
    assert trades[..|trades|] == trades;
    LossesInNumbers(trades, maxStreak);
  }

  // The copy in risk.go.
  method CalculateMaxConsecutiveLosses(trades: seq<Trade>) returns (maxStreak: int)
    ensures LongestStreak(IsLosing, trades, maxStreak)
    ensures exists i, j :: NoneWon(trades, i, j) && j - i == maxStreak
    ensures forall i, j | NoneWon(trades, i, j) :: j - i <= maxStreak
  {
    maxStreak := 0;
    var currentStreak := 0;
    assert Block(IsLosing, trades[..0], 0, 0);
    for i := 0 to |trades|
      invariant 0 <= currentStreak <= i
      invariant LongestStreak(IsLosing, trades[..i], maxStreak) && OpenStreak(IsLosing, trades[..i], i - currentStreak)
    {
      StreakGrows(IsLosing, trades[..i], trades[i], maxStreak, i - currentStreak);
      assert trades[..i + 1] == trades[..i] + [trades[i]];
      if trades[i].rr <= 0.0 {
        currentStreak := currentStreak + 1;
        if currentStreak > maxStreak { maxStreak := currentStreak; }
      } else {
        currentStreak := 0;
      }
    }
    assert trades[..|trades|] == trades;
    LossesInNumbers(trades, maxStreak);
  }

  // The specification leaves no choice, so any two implementations of it agree on every input.
  lemma LongestStreakIsUnique(p: Trade -> bool, trades: seq<Trade>, m: int, n: int)
    requires LongestStreak(p, trades, m) && LongestStreak(p, trades, n)
    ensures m == n
  {
    var i, j :| Block(p, trades, i, j) && j - i == m;
    var k, l :| Block(p, trades, k, l) && l - k == n;
  }

  lemma BlocksDisjoint(trades: seq<Trade>, i: int, j: int, k: int, l: int, m: int)
    requires Block(IsWin, trades, i, j) && Block(IsLosing, trades, k, l)
    ensures !(i <= m < j && k <= m < l)
  {
    if 0 <= m < |trades| { assert IsWin(trades[m]) <==> !IsLosing(trades[m]); }
  }

  // Winning and losing streaks are disjoint, so together they never exceed the number of trades.
  lemma StreaksFitTogether(trades: seq<Trade>, wins: int, losses: int)
    requires LongestStreak(IsWin, trades, wins) && LongestStreak(IsLosing, trades, losses)
    ensures wins + losses <= |trades|
  {
    var i, j :| Block(IsWin, trades, i, j) && j - i == wins;
    var k, l :| Block(IsLosing, trades, k, l) && l - k == losses;
    BlocksDisjoint(trades, i, j, k, l, if i > k then i else k);
  }

  // ---- value at risk ----

  function Below(v: real): real -> bool { x => x < v }

  function AtMost(v: real): real -> bool { x => x <= v }

  // v is the value at position `index` of the values in order.
  ghost predicate OrderStatistic(xs: seq<real>, index: int, v: real) {
    CountOf(Below(v), xs) <= index < CountOf(AtMost(v), xs)
  }

  lemma SameLength<T>(xs: seq<T>, ys: seq<T>)
    requires Permutation(ys, xs)
    ensures |xs| == |ys|
  {
    assert |multiset(xs)| == |xs| && |multiset(ys)| == |ys|;
  }

  // Fewer than or as many as `index` values lie below v, and more than `index` do not lie above it.
  ghost predicate RanksAt(xs: seq<real>, index: int, v: real) {
    && |set i | 0 <= i < |xs| && xs[i] < v| <= index
    && index < |set i | 0 <= i < |xs| && xs[i] <= v|
  }

  lemma OrderStatisticInNumbers(xs: seq<real>, index: int, v: real)
    ensures OrderStatistic(xs, index, v) <==> RanksAt(xs, index, v)
  {
    CountIsCardinality(Below(v), xs, set i | 0 <= i < |xs| && xs[i] < v);
    CountIsCardinality(AtMost(v), xs, set i | 0 <= i < |xs| && xs[i] <= v);
  }

  // sort.Float64s, in place.
  method SortFloats(a: array<real>)
    modifies a
    ensures SortedPermutation(Itself, a[..], old(a[..]))
    ensures multiset(a[..]) == multiset(old(a[..]))
    ensures forall i, j | 0 <= i < j < a.Length :: a[i] <= a[j]
  {
    ghost var before := a[..];
    var sorted := Sorted(Itself, a[..]);
    SortedOk(Itself, before);
    SameLength(sorted, before);
    forall i | 0 <= i < a.Length { a[i] := sorted[i]; }
    assert a[..] == sorted;
    forall i, j | 0 <= i < j < a.Length ensures a[i] <= a[j] { assert Itself(a[..][i]) <= Itself(a[..][j]); }
  }

  lemma {:induction false} CountAtMostLength<T>(p: T -> bool, xs: seq<T>)
    ensures CountOf(p, xs) <= |xs|
    ensures (forall i | 0 <= i < |xs| :: p(xs[i])) ==> CountOf(p, xs) == |xs|
    ensures (forall i | 0 <= i < |xs| :: !p(xs[i])) ==> CountOf(p, xs) == 0
  {
    if xs != [] {
      var init := xs[..|xs| - 1];
      assert forall i | 0 <= i < |init| :: init[i] == xs[i];
      CountAtMostLength(p, init);
    }
  }

  lemma PrefixIsAtMost(xs: seq<real>, index: nat)
    requires SortedBy(Itself, xs) && index < |xs|
    ensures CountOf(AtMost(xs[index]), xs) >= index + 1
  {
    var v, front, rest := xs[index], xs[..index + 1], xs[index + 1..];
    assert xs == front + rest;
    forall i | 0 <= i < |front| ensures AtMost(v)(front[i]) {
      if i < index { assert Itself(xs[i]) <= Itself(xs[index]); }
    }
    CountAtMostLength(AtMost(v), front);
    CountConcat(AtMost(v), front, rest);
  }

  lemma OnlyPrefixIsBelow(xs: seq<real>, index: nat)
    requires SortedBy(Itself, xs) && index < |xs|
    ensures CountOf(Below(xs[index]), xs) <= index
  {
    var v, front, rest := xs[index], xs[..index], xs[index..];
    assert xs == front + rest;
    forall i | 0 <= i < |rest| ensures !Below(v)(rest[i]) {
      if i > 0 { assert Itself(xs[index]) <= Itself(xs[index + i]); }
    }
    CountAtMostLength(Below(v), front);
    CountAtMostLength(Below(v), rest);
    CountConcat(Below(v), front, rest);
  }

  // Go's int(): truncation toward zero.
  function Truncated(x: real): int { if x >= 0.0 then x.Floor else -((-x).Floor) }

  // Where the sorted copy is looked up; only the upper end is clamped.
  function VaRIndex(n: nat, confidence: real): int
    requires n > 0
  {
    var index := Truncated(Times(n as real, 1.0 - confidence));
    if index >= n then n - 1 else index
  }

  lemma VaRIndexInRange(n: nat, confidence: real)
    requires n > 0
    ensures VaRIndex(n, confidence) < n
    ensures VaRIndex(n, confidence) < 0 <==> Times(n as real, 1.0 - confidence) <= -1.0
    ensures confidence <= 1.0 ==> VaRIndex(n, confidence) >= 0
  {
    ProductSign(n as real, 1.0 - confidence);
  }

  // The index of the value at risk among n returns: n * (1 - confidence) without its fraction, the
  // last one for a confidence of zero or less, and the first one for one a little above 1.
  ghost predicate CutOff(n: nat, confidence: real, index: nat) {
    if confidence <= 0.0 then index == n - 1
    else if confidence > 1.0 then index == 0
    else index as real <= n as real * (1.0 - confidence) < index as real + 1.0
  }

  lemma VaRIndexInNumbers(n: nat, confidence: real)
    requires n > 0 && VaRIndex(n, confidence) >= 0
    ensures CutOff(n, confidence, VaRIndex(n, confidence))
  {
    ProductSign(n as real, 1.0 - confidence);
    ProductSign(n as real, confidence);
    assert Times(n as real, 1.0 - confidence) == n as real - Times(n as real, confidence);
  }

  // v stands at the index of the value at risk when the returns are put in order.
  ghost predicate IsVaR(xs: seq<real>, confidence: real, v: real) {
    exists index: nat :: RanksAt(xs, index, v) && CutOff(|xs|, confidence, index)
  }

  lemma VaRInNumbers(xs: seq<real>, confidence: real, v: real)
    requires xs != [] && VaRIndex(|xs|, confidence) >= 0 && OrderStatistic(xs, VaRIndex(|xs|, confidence), v)
    ensures IsVaR(xs, confidence, v)
  {
    var index := VaRIndex(|xs|, confidence);
    VaRIndexInNumbers(|xs|, confidence);
    OrderStatisticInNumbers(xs, index, v);
    assert RanksAt(xs, index, v) && CutOff(|xs|, confidence, index);
  }

  // The result is an order statistic of the returns, whose slice the method may not touch.  None is
  // the panic of an index below zero, which takes a confidence of at least 1 + 1/n.
  method CalculateVaR(rets: array<real>, confidence: real) returns (v: Option<real>)
    ensures rets.Length < 2 ==> v == Some(0.0)
    ensures rets.Length >= 2 ==> (v.None? <==> rets.Length as real * (1.0 - confidence) <= -1.0)
    ensures rets.Length >= 2 && v.Some? ==> IsVaR(rets[..], confidence, v.value)
  {
    if rets.Length < 2 { return Some(0.0); }
    var sorted := new real[rets.Length];
    forall i | 0 <= i < rets.Length { sorted[i] := rets[i]; }
    assert sorted[..] == rets[..];
    SortFloats(sorted);
    VaRIndexInRange(rets.Length, confidence);
    var index := VaRIndex(rets.Length, confidence);
    if index < 0 { return None; }
    PrefixIsAtMost(sorted[..], index);
    OnlyPrefixIsBelow(sorted[..], index);
    v := Some(sorted[index]);
    CountPermutes(Below(v.value), rets[..], sorted[..]);
    CountPermutes(AtMost(v.value), rets[..], sorted[..]);
    VaRInNumbers(rets[..], confidence, v.value);
  }

  lemma {:induction false} CountMonotone<T>(p: T -> bool, q: T -> bool, xs: seq<T>)
    requires forall x :: p(x) ==> q(x)
    ensures CountOf(p, xs) <= CountOf(q, xs)
  {
    if xs != [] { CountMonotone(p, q, xs[..|xs| - 1]); }
  }

  // An order statistic is determined by the values alone: not by their order, nor by the sort.
  lemma OrderStatisticIgnoresOrder(xs: seq<real>, ys: seq<real>, index: int, v: real, w: real)
    requires Permutation(xs, ys) && OrderStatistic(xs, index, v) && OrderStatistic(ys, index, w)
    ensures v == w
  {
    CountPermutes(Below(w), xs, ys);
    CountPermutes(AtMost(w), xs, ys);
    if v < w { CountMonotone(AtMost(v), Below(w), xs); }
    if w < v { CountMonotone(AtMost(w), Below(v), xs); }
  }
}
