/**
  Take-profit levels (parser.go, extractTakeProfit): indexed matches claim their own level, list
  tokens get the unused levels from len+1 on.
*/
module TakeProfit {
  import opened Options
  import opened NumberList
  import opened Sequences

  datatype SymbolRule = SymbolRule(decimalPlaces: seq<nat>, minValue: real, maxValue: real, commaDecimal: bool)

  // The parser for one symbol, with the library's number reading and shortest formatting as given.
  datatype Parser = Parser(rule: Option<SymbolRule>, parseFloat: string -> Option<real>, format: real -> string)

  // An indexed match: its level and the number its cleaned text reads as, if any.
  datatype IndexedMatch = IndexedMatch(level: nat, price: Option<real>)

  datatype Level = Level(level: nat, price: real)

  type LevelMap = map<nat, real>

  // ---- prices ----

  predicate IsDot(c: char) { c == '.' }

  function CountDecimalPlaces(formatted: string): nat {
    var parts := SplitEach(formatted, IsDot);
    if |parts| == 2 then |parts[1]| else 0
  }

  // One decimal point gives the length of the fraction, none gives zero.
  lemma PlacesOfDecimal(whole: string, fraction: string)
    requires '.' !in whole && '.' !in fraction
    ensures CountDecimalPlaces(whole + "." + fraction) == |fraction| && CountDecimalPlaces(whole) == 0
  {
    var s := whole + "." + fraction;
    FirstUnique(s, IsDot, |whole|);
    FirstUnique(fraction, IsDot, |fraction|);
    FirstUnique(whole, IsDot, |whole|);
    assert s[|whole| + 1..] == fraction;
    assert SplitEach(s, IsDot) == [s[..|whole|]] + SplitEach(fraction, IsDot) == [s[..|whole|], fraction];
  }

  // The only decimal point of s stands at i.
  ghost predicate OnlyPoint(s: string, i: int) {
    0 <= i < |s| && s[i] == '.' && forall j | 0 <= j < |s| && j != i :: s[j] != '.'
  }

  // n characters stand behind the only decimal point of s; without such a point n is zero.
  ghost predicate HasPlaces(s: string, n: int) {
    && (forall i | OnlyPoint(s, i) :: n == |s| - i - 1)
    && ((forall i: int :: !OnlyPoint(s, i)) ==> n == 0)
  }

  lemma TwoPointsNoPlaces(s: string, i: nat, j: nat)
    requires i < j < |s| && s[i] == '.' && s[j] == '.'
    ensures CountDecimalPlaces(s) == 0 && forall k: int :: !OnlyPoint(s, k)
  {
    var f := First(s, IsDot);
    var rest := s[f + 1..];
    assert f <= i && rest[j - f - 1] == '.';
    assert |SplitEach(rest, IsDot)| >= 2;
  }

  lemma OnePointHasPlaces(s: string, i: nat)
    requires OnlyPoint(s, i)
    ensures CountDecimalPlaces(s) == |s| - i - 1
  {
    assert s == s[..i] + "." + s[i + 1..];
    PlacesOfDecimal(s[..i], s[i + 1..]);
  }

  lemma PlacesInNumbers(s: string)
    ensures HasPlaces(s, CountDecimalPlaces(s))
  {
    var i := First(s, IsDot);
    if i == |s| {
      PlacesOfDecimal(s, "");
    } else if OnlyPoint(s, i) {
      OnePointHasPlaces(s, i);
    } else {
      var j :| 0 <= j < |s| && j != i && s[j] == '.';
      TwoPointsNoPlaces(s, i, j);
    }
  }

  lemma PlacesAreUnique(s: string, m: int, n: int)
    requires HasPlaces(s, m) && HasPlaces(s, n)
    ensures m == n
  {
    if i: int :| OnlyPoint(s, i) { assert OnlyPoint(s, i); }
  }

  // The number of decimals is one the rule lists, where it lists any.
  ghost predicate PlacesAllowed(places: seq<nat>, formatted: string) {
    places == [] || exists i | 0 <= i < |places| :: HasPlaces(formatted, places[i])
  }

  // The price lies within the bounds of the symbol's rule, with a number of decimals it lists.
  ghost predicate KeepsRule(p: Parser, price: real) {
    p.rule.Some? ==>
      && p.rule.value.minValue <= price && price <= p.rule.value.maxValue
      && PlacesAllowed(p.rule.value.decimalPlaces, p.format(price))
  }

  lemma ListedPlaces(places: seq<nat>, formatted: string)
    requires places != []
    ensures CountDecimalPlaces(formatted) in places <==> PlacesAllowed(places, formatted)
  {
    PlacesInNumbers(formatted);
    if PlacesAllowed(places, formatted) {
      var i :| 0 <= i < |places| && HasPlaces(formatted, places[i]);
      PlacesAreUnique(formatted, places[i], CountDecimalPlaces(formatted));
    }
  }

  // Without a rule every price passes.  With one, it must lie within both bounds and have a number
  // of decimals the rule lists.
  method ValidatePrice(p: Parser, price: real) returns (ok: bool)
    ensures ok <==> KeepsRule(p, price)
    ensures p.rule.None? ==> ok
    ensures p.rule.Some? ==>
              (ok <==> && p.rule.value.minValue <= price && price <= p.rule.value.maxValue
                       && PlacesAllowed(p.rule.value.decimalPlaces, p.format(price)))
  {
    if p.rule.None? { return true; }
    var rule := p.rule.value;
    if rule.decimalPlaces != [] { ListedPlaces(rule.decimalPlaces, p.format(price)); }
    if price < rule.minValue || price > rule.maxValue { return false; }
    var decPlaces := CountDecimalPlaces(p.format(price));
    var valid := false;
    for i := 0 to |rule.decimalPlaces|
      invariant valid == (decPlaces in rule.decimalPlaces[..i])
    {
      if decPlaces == rule.decimalPlaces[i] {
        valid := true;
        break;
      }
    }
    if !valid && |rule.decimalPlaces| > 0 { return false; }
    return true;
  }

  // ---- which levels the tokens get ----

  function KeysFrom(used: set<nat>, n: nat): set<nat> { set k | k in used && k >= n }

  lemma SearchAdvances(used: set<nat>, n: nat)
    requires n in used
    ensures |KeysFrom(used, n + 1)| < |KeysFrom(used, n)|
  {
    assert KeysFrom(used, n + 1) == KeysFrom(used, n) - {n};
  }

  // The least unused level from n on.
  function NextFree(used: set<nat>, n: nat): (l: nat)
    ensures l >= n && l !in used && forall k | n <= k < l :: k in used
    decreases |KeysFrom(used, n)|
  {
    if n !in used then n
    else
      SearchAdvances(used, n);
      NextFree(used, n + 1)
  }

  // The levels of k tokens in text order.
  function Levels(used: set<nat>, n: nat, k: nat): (ls: seq<nat>)
    ensures |ls| == k
    decreases k
  {
    if k == 0 then [] else
      var l := NextFree(used, n);
      [l] + Levels(used, l + 1, k - 1)
  }

  // Unused so far and rising.
  ghost predicate FreshFrom(used: set<nat>, n: nat, ls: seq<nat>) {
    && (forall i | 0 <= i < |ls| :: ls[i] >= n && ls[i] !in used)
    && (forall i, j | 0 <= i < j < |ls| :: ls[i] < ls[j])
  }

  lemma {:induction false} LevelsAreFresh(used: set<nat>, n: nat, k: nat)
    ensures FreshFrom(used, n, Levels(used, n, k))
    decreases k
  {
    if k > 0 {
      var l := NextFree(used, n);
      LevelsAreFresh(used, l + 1, k - 1);
      var rest := Levels(used, l + 1, k - 1);
      assert forall i | 0 < i < k :: ([l] + rest)[i] == rest[i - 1];
    }
  }

  function Assign(m: LevelMap, levels: seq<nat>, prices: seq<real>): LevelMap
    requires |levels| == |prices|
    decreases |levels|
  {
    if levels == [] then m else Assign(m[levels[0] := prices[0]], levels[1..], prices[1..])
  }

  // What the list phase adds to m, as if all lists were one.
  function Allocated(m: LevelMap, prices: seq<real>): LevelMap {
    Assign(m, Levels(m.Keys, |m| + 1, |prices|), prices)
  }

  // ---- what one text holds ----

  // An indexed match that counts: a readable, valid price.
  ghost predicate Counts(p: Parser, m: IndexedMatch) { m.price.Some? && KeepsRule(p, m.price.value) }

  ghost function AfterIndexed(p: Parser, matches: seq<IndexedMatch>): LevelMap {
    if matches == [] then map[]
    else
      var m, last := AfterIndexed(p, matches[..|matches| - 1]), matches[|matches| - 1];
      if Counts(p, last) then m[last.level := last.price.value] else m
  }

  // The last match that counts for its level.
  ghost predicate LastOfItsLevel(p: Parser, matches: seq<IndexedMatch>, i: nat) {
    && i < |matches| && Counts(p, matches[i])
    && forall j | i < j < |matches| && matches[j].level == matches[i].level :: !Counts(p, matches[j])
  }

  // The last match that counts for its level sets that level's price.
  lemma {:induction false} LastValidMatchWins(p: Parser, matches: seq<IndexedMatch>, i: nat)
    requires LastOfItsLevel(p, matches, i)
    ensures matches[i].level in AfterIndexed(p, matches)
    ensures AfterIndexed(p, matches)[matches[i].level] == matches[i].price.value
  {
    var n, init := |matches| - 1, matches[..|matches| - 1];
    if i < n {
      assert forall j | 0 <= j < n :: init[j] == matches[j];
      LastValidMatchWins(p, init, i);
    }
  }

  // And every level known has such a match.
  lemma {:induction false} EveryLevelHasAMatch(p: Parser, matches: seq<IndexedMatch>, l: nat) returns (i: nat)
    requires l in AfterIndexed(p, matches)
    ensures LastOfItsLevel(p, matches, i) && matches[i].level == l
  {
    var n, init := |matches| - 1, matches[..|matches| - 1];
    if Counts(p, matches[n]) && matches[n].level == l {
      i := n;
    } else {
      i := EveryLevelHasAMatch(p, init, l);
      assert forall j | 0 <= j < n :: init[j] == matches[j];
    }
  }

  predicate CommaDecimal(p: Parser) { p.rule.Some? && p.rule.value.commaDecimal }

  ghost function TokenPrice(p: Parser, token: string): seq<real> {
    var n := p.parseFloat(token);
    if n.Some? && KeepsRule(p, n.value) then [n.value] else []
  }

  ghost function Prices(p: Parser, tokens: seq<string>): seq<real> {
    if tokens == [] then [] else Prices(p, tokens[..|tokens| - 1]) + TokenPrice(p, tokens[|tokens| - 1])
  }

  // The tokens of every list match, read in the symbol's convention.
  ghost function TokenLists(p: Parser, lists: seq<string>): (ts: seq<seq<string>>)
    ensures |ts| == |lists|
    ensures forall i | 0 <= i < |ts| :: ts[i] == Tokens(lists[i], p.rule.Some? && p.rule.value.commaDecimal)
  {
    seq(|lists|, i requires 0 <= i < |lists| => Tokens(lists[i], CommaDecimal(p)))
  }

  // The prices of all of them, in text order.
  ghost function ListPrices(p: Parser, lists: seq<seq<string>>): seq<real> {
    if lists == [] then [] else ListPrices(p, lists[..|lists| - 1]) + Prices(p, lists[|lists| - 1])
  }

  function LevelOf(l: Level): real { l.level as real }

  // The answer lists the map's entries by strictly increasing level.
  ghost predicate Lists(levels: seq<Level>, m: LevelMap) {
    && (forall i, j | 0 <= i < j < |levels| :: levels[i].level < levels[j].level)
    && (forall l | l in levels :: l.level in m && m[l.level] == l.price)
    && (forall k | k in m :: Level(k, m[k]) in levels)
  }

  // ---- why restarting at len + 1 is harmless ----

  // The first level behind the last one given out.
  function Cursor(used: set<nat>, n: nat, k: nat): nat {
    if k == 0 then n else Levels(used, n, k)[k - 1] + 1
  }

  // Searching from `next` finds what the uninterrupted search would find.
  ghost predicate Resumes(m: LevelMap, k: nat, next: nat) {
    |m| + 1 <= next <= Cursor(m.Keys, |m| + 1, k)
  }

  lemma {:induction false} AssignOneMore(m: LevelMap, levels: seq<nat>, prices: seq<real>, l: nat, price: real)
    requires |levels| == |prices|
    ensures Assign(m, levels + [l], prices + [price]) == Assign(m, levels, prices)[l := price]
    decreases |levels|
  {
    if levels != [] {
      assert (levels + [l])[1..] == levels[1..] + [l] && (prices + [price])[1..] == prices[1..] + [price];
      AssignOneMore(m[levels[0] := prices[0]], levels[1..], prices[1..], l, price);
    } else {
      assert Assign(m, [l], [price]) == Assign(m[l := price], [l][1..], [price][1..]);
    }
  }

  lemma CursorOfRest(used: set<nat>, n: nat, k: nat)
    requires k > 0
    ensures Cursor(used, n, k) == Cursor(used, NextFree(used, n) + 1, k - 1)
  {
  }

  lemma {:induction false} LevelsOneMore(used: set<nat>, n: nat, k: nat)
    ensures Levels(used, n, k + 1) == Levels(used, n, k) + [NextFree(used, Cursor(used, n, k))]
    decreases k
  {
    var l := NextFree(used, n);
    if k > 0 {
      LevelsOneMore(used, l + 1, k - 1);
      CursorOfRest(used, n, k);
      Associates([l], Levels(used, l + 1, k - 1), [NextFree(used, Cursor(used, n, k))]);
    }
  }

  lemma CursorMoves(used: set<nat>, n: nat, k: nat)
    ensures Cursor(used, n, k + 1) == NextFree(used, Cursor(used, n, k)) + 1
  {
    LevelsOneMore(used, n, k);
  }

  lemma NextFreeAgrees(used: set<nat>, more: set<nat>, next: nat, cursor: nat)
    requires next <= cursor && used <= more
    requires forall l | next <= l < cursor :: l in more
    requires forall l | l >= cursor :: l in more <==> l in used
    ensures NextFree(more, next) == NextFree(used, cursor)
  {
    var a, b := NextFree(more, next), NextFree(used, cursor);
    assert a >= cursor;
  }

  // Every level from n up to c is used or among ls.
  ghost predicate Filled(used: set<nat>, ls: seq<nat>, n: nat, c: nat) {
    forall l | n <= l < c :: l in used || l in ls
  }

  lemma FillOneMore(used: set<nat>, ls: seq<nat>, n: nat, c: nat, last: nat)
    requires Filled(used, ls, n, c) && last == NextFree(used, c)
    ensures Filled(used, ls + [last], n, last + 1)
  {
  }

  // Between the start and the cursor nothing is left free.
  lemma {:induction false} NothingFreeBehindCursor(used: set<nat>, n: nat, k: nat)
    ensures Cursor(used, n, k) >= n + k
    ensures Filled(used, Levels(used, n, k), n, Cursor(used, n, k))
  {
    if k > 0 {
      NothingFreeBehindCursor(used, n, k - 1);
      var cursor := Cursor(used, n, k - 1);
      FillOneMore(used, Levels(used, n, k - 1), n, cursor, NextFree(used, cursor));
      LevelsOneMore(used, n, k - 1);
      CursorMoves(used, n, k - 1);
    }
  }

  lemma {:induction false} AssignKeys(m: LevelMap, levels: seq<nat>, prices: seq<real>)
    requires |levels| == |prices|
    requires FreshFrom(m.Keys, 0, levels)
    ensures var r := Assign(m, levels, prices);
            && |r| == |m| + |levels|
            && (forall k :: k in r <==> k in m || k in levels)
            && (forall k | k in m :: r[k] == m[k])
            && (forall i | 0 <= i < |levels| :: r[levels[i]] == prices[i])
    decreases |levels|
  {
    if levels != [] {
      var l, rest := levels[0], levels[1..];
      assert levels == [l] + rest;
      AssignKeys(m[l := prices[0]], rest, prices[1..]);
      forall i | 0 <= i < |levels| ensures Assign(m, levels, prices)[levels[i]] == prices[i] {
        if i > 0 { assert rest[i - 1] == levels[i]; }
      }
    }
  }

  lemma NothingGivenFromCursor(used: set<nat>, n: nat, k: nat)
    ensures forall l | l >= Cursor(used, n, k) :: l !in Levels(used, n, k)
  {
    LevelsAreFresh(used, n, k);
    var ls := Levels(used, n, k);
    if k > 0 {
      assert forall i | 0 <= i < k :: ls[i] <= ls[k - 1];
    }
  }

  // Behind the cursor every level is taken, from the cursor on only the first ones are.
  lemma TakenLevels(m: LevelMap, prices: seq<real>)
    ensures var all, cursor := Allocated(m, prices).Keys, Cursor(m.Keys, |m| + 1, |prices|);
            && m.Keys <= all
            && (forall l | |m| + 1 <= l < cursor :: l in all)
            && (forall l | l >= cursor :: l in all <==> l in m.Keys)
  {
    var n, k := |m| + 1, |prices|;
    var ls := Levels(m.Keys, n, k);
    LevelsAreFresh(m.Keys, n, k);
    AssignKeys(m, ls, prices);
    NothingFreeBehindCursor(m.Keys, n, k);
    NothingGivenFromCursor(m.Keys, n, k);
  }

  lemma NextLevelOfAll(m: LevelMap, prices: seq<real>, price: real, from: nat, next: nat)
    requires Resumes(m, |prices|, from) && next == NextFree(Allocated(m, prices).Keys, from)
    ensures Allocated(m, prices + [price]) == Allocated(m, prices)[next := price]
    ensures Resumes(m, |prices| + 1, next + 1)
  {
    var n, k := |m| + 1, |prices|;
    TakenLevels(m, prices);
    NextFreeAgrees(m.Keys, Allocated(m, prices).Keys, from, Cursor(m.Keys, n, k));
    CursorMoves(m.Keys, n, k);
    LevelsOneMore(m.Keys, n, k);
    AssignOneMore(m, Levels(m.Keys, n, k), prices, next, price);
  }

  lemma AllocatedNothing(m: LevelMap)
    ensures Allocated(m, []) == m
  {
  }

  lemma AllocatedSize(m: LevelMap, prices: seq<real>)
    ensures |Allocated(m, prices)| == |m| + |prices|
    ensures Cursor(m.Keys, |m| + 1, |prices|) >= |m| + |prices| + 1
  {
    LevelsAreFresh(m.Keys, |m| + 1, |prices|);
    AssignKeys(m, Levels(m.Keys, |m| + 1, |prices|), prices);
    NothingFreeBehindCursor(m.Keys, |m| + 1, |prices|);
  }

  // Where one list ends and the next begins makes no difference to the levels given.
  lemma {:induction false} ListsCompose(m: LevelMap, a: seq<real>, b: seq<real>)
    ensures Allocated(Allocated(m, a), b) == Allocated(m, a + b)
    decreases |b|
  {
    var start := Allocated(m, a);
    if b == [] {
      AllocatedNothing(start);
      assert a + b == a;
    } else {
      var init, last := b[..|b| - 1], b[|b| - 1];
      ListsCompose(m, a, init);
      AllocatedSize(m, a);
      AllocatedSize(m, a + init);
      AllocatedSize(start, init);
      var next := NextFree(Allocated(start, init).Keys, |start| + 1);
      NextLevelOfAll(start, init, last, |start| + 1, next);
      NextLevelOfAll(m, a + init, last, |start| + 1, next);
      assert init + [last] == b && (a + init) + [last] == a + b;
    }
  }

  // ---- every price listed keeps the rule ----

  ghost predicate AllKeepRule(p: Parser, prices: seq<real>) { forall i | 0 <= i < |prices| :: KeepsRule(p, prices[i]) }

  ghost predicate MapKeepsRule(p: Parser, m: LevelMap) { forall k | k in m :: KeepsRule(p, m[k]) }

  lemma {:induction false} IndexedKeepRule(p: Parser, matches: seq<IndexedMatch>)
    ensures MapKeepsRule(p, AfterIndexed(p, matches))
  {
    if matches != [] {
      IndexedKeepRule(p, matches[..|matches| - 1]);
    }
  }

  lemma {:induction false} PricesKeepRule(p: Parser, tokens: seq<string>)
    ensures AllKeepRule(p, Prices(p, tokens))
  {
    if tokens != [] {
      PricesKeepRule(p, tokens[..|tokens| - 1]);
    }
  }

  lemma {:induction false} ListPricesKeepRule(p: Parser, lists: seq<seq<string>>)
    ensures AllKeepRule(p, ListPrices(p, lists))
  {
    if lists != [] {
      ListPricesKeepRule(p, lists[..|lists| - 1]);
      PricesKeepRule(p, lists[|lists| - 1]);
    }
  }

  lemma {:induction false} AssignKeepsRule(p: Parser, m: LevelMap, levels: seq<nat>, prices: seq<real>)
    requires |levels| == |prices| && MapKeepsRule(p, m) && AllKeepRule(p, prices)
    ensures MapKeepsRule(p, Assign(m, levels, prices))
    decreases |levels|
  {
    if levels != [] { AssignKeepsRule(p, m[levels[0] := prices[0]], levels[1..], prices[1..]); }
  }

  lemma AnswerKeepsRule(p: Parser, matches: seq<IndexedMatch>, lists: seq<seq<string>>)
    ensures MapKeepsRule(p, Allocated(AfterIndexed(p, matches), ListPrices(p, lists)))
  {
    var m, prices := AfterIndexed(p, matches), ListPrices(p, lists);
    IndexedKeepRule(p, matches);
    ListPricesKeepRule(p, lists);
    AssignKeepsRule(p, m, Levels(m.Keys, |m| + 1, |prices|), prices);
  }

  // ---- the code ----

  lemma OneMoreList(p: Parser, lists: seq<seq<string>>, i: nat)
    requires i < |lists|
    ensures ListPrices(p, lists[..i + 1]) == ListPrices(p, lists[..i]) + Prices(p, lists[i])
  {
    assert lists[..i + 1][..i] == lists[..i];
  }

  // The indexed phase: a later match for the same level replaces an earlier one.
  method ReadIndexed(p: Parser, matches: seq<IndexedMatch>) returns (levelMap: LevelMap)
    ensures levelMap == AfterIndexed(p, matches)
    ensures forall i: nat | LastOfItsLevel(p, matches, i) ::
              matches[i].level in levelMap && levelMap[matches[i].level] == matches[i].price.value
    ensures forall l | l in levelMap :: exists i: nat :: LastOfItsLevel(p, matches, i) && matches[i].level == l
  {
    levelMap := map[];
    for i := 0 to |matches|
      invariant levelMap == AfterIndexed(p, matches[..i])
    {
      if matches[i].price.Some? {
        var ok := ValidatePrice(p, matches[i].price.value);
        if ok { levelMap := levelMap[matches[i].level := matches[i].price.value]; }
      }
      assert matches[..i + 1][..i] == matches[..i];
    }
    assert matches[..|matches|] == matches;
    forall i: nat | LastOfItsLevel(p, matches, i)
      ensures matches[i].level in levelMap && levelMap[matches[i].level] == matches[i].price.value
    {
      LastValidMatchWins(p, matches, i);
    }
    forall l | l in levelMap ensures exists i: nat :: LastOfItsLevel(p, matches, i) && matches[i].level == l {
      var i := EveryLevelHasAMatch(p, matches, l);
    }
  }

  // Text that is no number, or a price out of bounds, is skipped.
  method ReadToken(p: Parser, token: string) returns (price: Option<real>)
    ensures TokenPrice(p, token) == if price.Some? then [price.value] else []
    ensures var n := p.parseFloat(token);
            price == if n.Some? && KeepsRule(p, n.value) then n else None
  {
    price := p.parseFloat(token);
    if price.None? { return; }
    var ok := ValidatePrice(p, price.value);
    if !ok { price := None; }
  }

  // The inner search loop.
  method FindUnused(levelMap: LevelMap, from: nat) returns (nextLevel: nat)
    ensures nextLevel == NextFree(levelMap.Keys, from)
  {
    nextLevel := from;
    while nextLevel in levelMap
      invariant NextFree(levelMap.Keys, nextLevel) == NextFree(levelMap.Keys, from)
      decreases |KeysFrom(levelMap.Keys, nextLevel)|
    {
      SearchAdvances(levelMap.Keys, nextLevel);
      nextLevel := nextLevel + 1;
    }
  }

  // One accepted price takes the next unused level.
  method GiveLevel(start: LevelMap, from: nat, price: real, ghost m: LevelMap, ghost prices: seq<real>)
    returns (levelMap: LevelMap, nextLevel: nat)
    requires start == Allocated(m, prices) && Resumes(m, |prices|, from)
    ensures levelMap == Allocated(m, prices + [price]) && Resumes(m, |prices| + 1, nextLevel)
  {
    nextLevel := FindUnused(start, from);
    NextLevelOfAll(m, prices, price, from, nextLevel);
    levelMap := start[nextLevel := price];
    nextLevel := nextLevel + 1;
  }

  // One list match: nextLevel restarts at len + 1, whatever earlier lists were given.
  method AllocateList(p: Parser, tokens: seq<string>, start: LevelMap) returns (levelMap: LevelMap)
    ensures levelMap == Allocated(start, Prices(p, tokens))
  {
    levelMap := start;
    var nextLevel: nat := |levelMap| + 1;
    ghost var prices: seq<real> := [];
    AllocatedNothing(start);
    for i := 0 to |tokens|
      invariant prices == Prices(p, tokens[..i])
      invariant levelMap == Allocated(start, prices)
      invariant Resumes(start, |prices|, nextLevel)
    {
      assert tokens[..i + 1][..i] == tokens[..i];
      var price := ReadToken(p, tokens[i]);
      if price.None? { continue; }
      levelMap, nextLevel := GiveLevel(levelMap, nextLevel, price.value, start, prices);
      prices := prices + [price.value];
    }
    assert tokens[..|tokens|] == tokens;
  }

  lemma TwiceIsTwice(ls: seq<Level>, i: nat, j: nat)
    requires i < j < |ls| && ls[i] == ls[j]
    ensures multiset(ls)[ls[i]] >= 2
  {
    assert ls == ls[..i] + [ls[i]] + ls[i + 1..j] + [ls[j]] + ls[j + 1..];
  }

  ghost predicate DistinctLevels(ls: seq<Level>) { forall i, j | 0 <= i < j < |ls| :: ls[i].level != ls[j].level }

  lemma {:induction false} OnceIsOnce(ls: seq<Level>, l: Level)
    requires DistinctLevels(ls)
    ensures multiset(ls)[l] <= 1
  {
    if ls != [] {
      var init, last := ls[..|ls| - 1], ls[|ls| - 1];
      assert ls == init + [last];
      OnceIsOnce(init, l);
      forall i | 0 <= i < |init| ensures init[i] != last {
        assert init[i] == ls[i];
      }
      assert last !in multiset(init);
    }
  }

  lemma SortedLevelsList(found: seq<Level>, levels: seq<Level>, m: LevelMap)
    requires SortedPermutation(LevelOf, levels, found) && DistinctLevels(found)
    requires forall l | l in found :: l.level in m && m[l.level] == l.price
    requires forall k | k in m :: Level(k, m[k]) in found
    ensures Lists(levels, m)
  {
    forall l ensures l in levels <==> l in found {
      assert l in multiset(levels) <==> l in multiset(found);
    }
    forall i, j | 0 <= i < j < |levels| ensures levels[i].level < levels[j].level {
      assert LevelOf(levels[i]) <= LevelOf(levels[j]);
      if levels[i].level == levels[j].level {
        TwiceIsTwice(levels, i, j);
        OnceIsOnce(found, levels[i]);
      }
    }
  }

  // Map iteration in any order, then a sort by level.
  method InOrder(m: LevelMap) returns (levels: seq<Level>)
    ensures Lists(levels, m)
  {
    var todo := m.Keys;
    var found: seq<Level> := [];
    while todo != {}
      invariant todo <= m.Keys
      invariant forall l | l in found :: l.level in m && l.level !in todo && m[l.level] == l.price
      invariant forall k | k in m && k !in todo :: Level(k, m[k]) in found
      invariant forall i, j | 0 <= i < j < |found| :: found[i].level != found[j].level
      decreases |todo|
    {
      var k :| k in todo;
      found := found + [Level(k, m[k])];
      todo := todo - {k};
    }
    levels := Sorted(LevelOf, found);
    SortedOk(LevelOf, found);
    SortedLevelsList(found, levels, m);
  }

  // The two phases and the sort.
  method ExtractTakeProfit(p: Parser, matches: seq<IndexedMatch>, lists: seq<string>) returns (levels: seq<Level>)
    ensures Lists(levels, Allocated(AfterIndexed(p, matches), ListPrices(p, TokenLists(p, lists))))
    ensures forall l | l in levels && p.rule.Some? ::
              && p.rule.value.minValue <= l.price <= p.rule.value.maxValue
              && PlacesAllowed(p.rule.value.decimalPlaces, p.format(l.price))
  {
    ghost var given := TokenLists(p, lists);
    var levelMap := ReadIndexed(p, matches);
    ghost var indexed := levelMap;
    AllocatedNothing(indexed);
    for i := 0 to |lists|
      invariant levelMap == Allocated(indexed, ListPrices(p, given[..i]))
    {
      var tokens := ParseNumberList(lists[i], CommaDecimal(p));
      assert tokens == given[i];
      levelMap := AllocateList(p, tokens, levelMap);
      ListsCompose(indexed, ListPrices(p, given[..i]), Prices(p, tokens));
      OneMoreList(p, given, i);
    }
    assert given[..|lists|] == given;
    AnswerKeepsRule(p, matches, given);
    levels := InOrder(levelMap);
  }
}
