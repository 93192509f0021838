/**
  What the tokenizer returns: settled tokens that survive re-parsing, for every text.
*/
module NumberListTheorems {
  import opened NumberList

  // Nothing left to trim.
  predicate Tight(s: string) { s != "" ==> !IsSpace(s[0]) && !IsSpace(s[|s| - 1]) }

  predicate Free(s: string, p: char -> bool) { forall i | 0 <= i < |s| :: !p(s[i]) }

  // A token no further pass would touch.
  predicate Settled(t: string) { t != "" && Tight(t) && Free(t, IsDelim) }

  ghost predicate AllSettled(ts: seq<string>) { forall t | t in ts :: Settled(t) }

  // ---- trimming ----

  lemma {:induction false} TrimLeftOk(s: string)
    ensures var r := TrimLeft(s); (r != "" ==> !IsSpace(r[0])) && (forall c | c in r :: c in s)
  {
    if s != "" && IsSpace(s[0]) { TrimLeftOk(s[1..]); }
  }

  lemma {:induction false} TrimRightOk(s: string)
    ensures var r := TrimRight(s); r <= s && (r != "" ==> !IsSpace(r[|r| - 1]))
  {
    if s != "" && IsSpace(s[|s| - 1]) { TrimRightOk(s[..|s| - 1]); }
  }

  lemma TrimOk(s: string)
    ensures Tight(Trim(s)) && forall c | c in Trim(s) :: c in s
  {
    TrimLeftOk(s);
    TrimRightOk(TrimLeft(s));
  }

  lemma TightStays(s: string)
    requires Tight(s)
    ensures Trim(s) == s
  {
  }

  lemma FreePasses(x: string, s: string, p: char -> bool)
    requires Free(s, p) && forall c | c in x :: c in s
    ensures Free(x, p)
  {
    forall i | 0 <= i < |x| ensures !p(x[i]) { assert x[i] in s; }
  }

  // ---- every token is settled ----

  lemma {:induction false} FlatMapMember(f: string -> seq<string>, xs: seq<string>, t: string) returns (x: string)
    requires t in FlatMap(f, xs)
    ensures x in xs && t in f(x)
  {
    if t in f(xs[|xs| - 1]) {
      x := xs[|xs| - 1];
    } else {
      x := FlatMapMember(f, xs[..|xs| - 1], t);
    }
  }

  lemma {:induction false} DropWhileOk(s: string, p: char -> bool)
    ensures forall c | c in DropWhile(s, p) :: c in s
  {
    if s != "" && p(s[0]) { DropWhileOk(s[1..], p); }
  }

  lemma {:induction false} SplitRunsFree(s: string, p: char -> bool)
    ensures forall x | x in SplitRuns(s, p) :: Free(x, p)
    decreases |s|
  {
    var i := First(s, p);
    if i < |s| { SplitRunsFree(DropWhile(s[i + 1..], p), p); }
  }

  lemma {:induction false} SplitEachOk(s: string, p: char -> bool)
    ensures forall x | x in SplitEach(s, p) :: Free(x, p) && forall c | c in x :: c in s
    decreases |s|
  {
    var i := First(s, p);
    if i < |s| { SplitEachOk(s[i + 1..], p); }
  }

  lemma {:induction false} WithoutOk(s: string, p: char -> bool)
    ensures Free(Without(s, p), p) && forall c | c in Without(s, p) :: c in s
  {
    if s != "" { WithoutOk(s[1..], p); }
  }

  lemma RawTokensFree(part: string)
    requires Free(part, IsSep)
    ensures forall x | x in RawTokens(part) :: Free(x, IsDelim)
  {
    var t := Trim(part);
    TrimOk(part);
    FreePasses(t, part, IsSep);
    WithoutOk(t, IsComma);
    SplitEachOk(t, IsComma);
    FreePasses(Without(t, IsComma), t, IsSep);
    forall x | x in FlatMap(Kept, SplitEach(t, IsComma)) ensures Free(x, IsDelim) {
      var y := FlatMapMember(Kept, SplitEach(t, IsComma), x);
      TrimOk(y);
      FreePasses(x, y, IsComma);
      FreePasses(y, t, IsSep);
      FreePasses(x, y, IsSep);
    }
  }

  lemma PartTokensSettled(part: string, commaDecimal: bool)
    requires Free(part, IsSep)
    ensures AllSettled(PartTokens(commaDecimal)(part))
  {
    TrimOk(part);
    FreePasses(Trim(part), part, IsSep);
    if !commaDecimal {
      RawTokensFree(part);
      forall t | t in DotTokens(part) ensures Settled(t) {
        var x := FlatMapMember(Kept, RawTokens(part), t);
        TrimOk(x);
        FreePasses(t, x, IsDelim);
      }
    }
  }

  lemma TokensAreSettled(s: string, commaDecimal: bool)
    ensures AllSettled(Tokens(s, commaDecimal))
  {
    var parts := SplitRuns(Trim(s), IsSep);
    SplitRunsFree(Trim(s), IsSep);
    forall t | t in Tokens(s, commaDecimal) ensures Settled(t) {
      var part := FlatMapMember(PartTokens(commaDecimal), parts, t);
      PartTokensSettled(part, commaDecimal);
    }
  }

  // ---- re-parsing ----

  function Join(ts: seq<string>): string {
    if ts == [] then "" else if |ts| == 1 then ts[0] else Join(ts[..|ts| - 1]) + " " + ts[|ts| - 1]
  }

  lemma {:induction false} JoinOk(ts: seq<string>)
    requires AllSettled(ts)
    ensures Tight(Join(ts)) && (ts != [] ==> Join(ts) != "") && Pieces(Join(ts), IsSep) == ts
  {
    if ts != [] {
      var init, last := ts[..|ts| - 1], ts[|ts| - 1];
      assert ts == init + [last];
      assert Settled(last) && AllSettled(init);
      JoinOk(init);
      PiecesOfWhole(last, IsSep);
      if |ts| > 1 {
        PiecesSplitAt(Join(init), ' ', last, IsSep);
      } else {
        assert ts == [last];
      }
    } else {
      PiecesOfWhole("", IsSep);
    }
  }

  lemma {:induction false} WithoutNothing(s: string, p: char -> bool)
    requires Free(s, p)
    ensures Without(s, p) == s
  {
    if s != "" {
      assert forall i | 0 <= i < |s[1..]| :: s[1..][i] == s[i + 1];
      WithoutNothing(s[1..], p);
      assert s == [s[0]] + s[1..];
    }
  }

  lemma SettledPartStays(t: string, commaDecimal: bool)
    requires Settled(t)
    ensures PartTokens(commaDecimal)(t) == [t]
  {
    TightStays(t);
    assert Free(t, IsComma) && ',' !in t;
    WithoutNothing(t, IsComma);
    FlatMapOne(Kept, t);
    assert CommasToDots(t) == t;
  }

  lemma {:induction false} FlatMapIdentity(f: string -> seq<string>, ts: seq<string>)
    requires forall t | t in ts :: f(t) == [t]
    ensures FlatMap(f, ts) == ts
  {
    if ts != [] {
      var init, last := ts[..|ts| - 1], ts[|ts| - 1];
      assert ts == init + [last];
      assert f(last) == [last];
      FlatMapIdentity(f, init);
    }
  }

  // Parsing the tokens of any text again, joined with spaces, returns the same tokens, in either
  // decimal convention and whatever odd Unicode spaces the text held.
  lemma ReparsingIsIdempotent(s: string, commaDecimal: bool)
    ensures Tokens(Join(Tokens(s, commaDecimal)), commaDecimal) == Tokens(s, commaDecimal)
  {
    var ts, f := Tokens(s, commaDecimal), PartTokens(commaDecimal);
    TokensAreSettled(s, commaDecimal);
    JoinOk(ts);
    TightStays(Join(ts));
    SplitRunsGivesPieces(f, Join(ts), IsSep);
    forall t | t in ts ensures f(t) == [t] { SettledPartStays(t, commaDecimal); }
    FlatMapIdentity(f, ts);
  }
}
