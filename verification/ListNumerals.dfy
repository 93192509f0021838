/**
  Exactly when the tokenizer finds the numerals of a text, and the round trip of properly written lists.
*/
module ListNumerals {
  import opened NumberList
  import opened NumberListTheorems

  function CommaPieces(part: string): seq<string> { Pieces(part, IsComma) }

  // The numerals of a text: what stands between separators and commas, outer spaces trimmed.
  function Numerals(s: string): seq<string> { FlatMap(Kept, Pieces(s, IsDelim)) }

  // The same for a part without separators, which only commas divide.
  function PartNumerals(part: string): seq<string> { FlatMap(Kept, CommaPieces(part)) }

  // A part whose numerals the tokenizer keeps apart: commas only glue it when it also holds a dot.
  predicate Unglued(part: string) { '.' in part ==> |PartNumerals(part)| <= 1 }

  ghost predicate AllUnglued(parts: seq<string>) { forall x | x in parts :: Unglued(x) }

  // ---- cutting in two stages ----

  lemma {:induction false} PiecesAgree(s: string, p: char -> bool, q: char -> bool)
    requires forall i | 0 <= i < |s| :: p(s[i]) == q(s[i])
    ensures Pieces(s, p) == Pieces(s, q)
    decreases |s|
  {
    var i := First(s, p);
    FirstUnique(s, q, i);
    if i < |s| { PiecesAgree(s[i + 1..], p, q); }
  }

  lemma PieceMaps(f: string -> seq<string>, x: string)
    requires f("") == []
    ensures FlatMap(f, Piece(x)) == f(x)
  {
    FlatMapOne(f, x);
  }

  lemma NothingInNothing()
    ensures CommaPieces("") == [] && Kept("") == [] && DotTokens("") == []
  {
    PiecesOfWhole("", IsComma);
  }

  // Cutting at separators first and at commas then gives the same pieces as cutting at both.
  lemma {:induction false} PiecesByParts(s: string)
    ensures Pieces(s, IsDelim) == FlatMap(CommaPieces, Pieces(s, IsSep))
    decreases |s|
  {
    var i := First(s, IsSep);
    var x := s[..i];
    PiecesAgree(x, IsDelim, IsComma);
    NothingInNothing();
    PieceMaps(CommaPieces, x);
    if i == |s| {
      assert x == s;
      PiecesOfWhole(s, IsSep);
    } else {
      var rest := s[i + 1..];
      PiecesByParts(rest);
      Regroup(s, i, s[i], "");
      PiecesSplitAt(x, s[i], rest, IsDelim);
      PiecesAfterPrefix(x, s[i], rest, IsSep);
      FlatMapConcat(CommaPieces, Piece(x), Pieces(rest, IsSep));
    }
  }

  lemma NumeralsByParts(s: string)
    ensures Numerals(s) == FlatMap(PartNumerals, Pieces(s, IsSep))
  {
    PiecesByParts(s);
    FlatMapComposes(Kept, CommaPieces, PartNumerals, Pieces(s, IsSep));
  }

  // ---- outer spaces ----

  predicate AllSpace(s: string) { forall i | 0 <= i < |s| :: IsSpace(s[i]) }

  lemma TrimAfterSpace(c: char, x: string)
    requires IsSpace(c)
    ensures Trim([c] + x) == Trim(x)
  {
    assert ([c] + x)[1..] == x;
  }

  lemma {:induction false} TrimLeftBefore(x: string, c: char)
    requires IsSpace(c)
    ensures TrimLeft(x + [c]) == if TrimLeft(x) == "" then "" else TrimLeft(x) + [c]
  {
    if x == "" {
      assert x + [c] == [c] && [c][1..] == "";
    } else if IsSpace(x[0]) {
      assert (x + [c])[1..] == x[1..] + [c];
      TrimLeftBefore(x[1..], c);
    }
  }

  lemma TrimBeforeSpace(x: string, c: char)
    requires IsSpace(c)
    ensures Trim(x + [c]) == Trim(x)
  {
    TrimLeftBefore(x, c);
    var y := TrimLeft(x);
    assert (y + [c])[..|y|] == y;
  }

  lemma {:induction false} SpacesInFront(x: string, y: string)
    requires AllSpace(x)
    ensures Trim(x + y) == Trim(y)
  {
    if x == "" {
      assert x + y == y;
    } else {
      assert x + y == [x[0]] + (x[1..] + y);
      TrimAfterSpace(x[0], x[1..] + y);
      SpacesInFront(x[1..], y);
    }
  }

  lemma {:induction false} SpacesBehind(x: string, y: string)
    requires AllSpace(y)
    ensures Trim(x + y) == Trim(x)
    decreases |y|
  {
    if y == "" {
      assert x + y == x;
    } else {
      var init := y[..|y| - 1];
      assert x + y == (x + init) + [y[|y| - 1]];
      TrimBeforeSpace(x + init, y[|y| - 1]);
      SpacesBehind(x, init);
    }
  }

  lemma {:induction false} NothingLeft(s: string)
    ensures TrimLeft(s) == "" ==> AllSpace(s)
  {
    if s != "" && IsSpace(s[0]) {
      NothingLeft(s[1..]);
      assert s == [s[0]] + s[1..];
    }
  }

  lemma {:induction false} NothingRight(s: string)
    ensures TrimRight(s) == "" ==> AllSpace(s)
  {
    if s != "" && IsSpace(s[|s| - 1]) {
      NothingRight(s[..|s| - 1]);
      assert s == s[..|s| - 1] + [s[|s| - 1]];
    }
  }

  lemma NothingKept(s: string)
    requires Kept(s) == []
    ensures AllSpace(s)
  {
    TrimLeftOk(s);
    NothingRight(TrimLeft(s));
    NothingLeft(s);
  }

  lemma {:induction false} TrimLeftKeepsOthers(s: string, c: char)
    requires !IsSpace(c)
    ensures c in TrimLeft(s) <==> c in s
  {
    if s != "" && IsSpace(s[0]) {
      TrimLeftKeepsOthers(s[1..], c);
      assert s == [s[0]] + s[1..];
    }
  }

  lemma {:induction false} TrimRightKeepsOthers(s: string, c: char)
    requires !IsSpace(c)
    ensures c in TrimRight(s) <==> c in s
  {
    if s != "" && IsSpace(s[|s| - 1]) {
      TrimRightKeepsOthers(s[..|s| - 1], c);
      assert s == s[..|s| - 1] + [s[|s| - 1]];
    }
  }

  // f does not see outer spaces.
  ghost predicate SeesTrimmed(f: string -> seq<string>) {
    f("") == [] && forall x {:trigger Trim(x)} :: f(x) == f(Trim(x))
  }

  lemma KeptAndTokensSeeTrimmed()
    ensures SeesTrimmed(Kept) && SeesTrimmed(DotTokens)
  {
    NothingInNothing();
    forall x ensures Trim(Trim(x)) == Trim(x) {
      TrimOk(x);
      TightStays(Trim(x));
    }
  }

  lemma DelimInFront(c: char, s: string, p: char -> bool)
    requires p(c)
    ensures Pieces([c] + s, p) == Pieces(s, p)
  {
    assert [c] + s == "" + [c] + s;
    PiecesAfterPrefix("", c, s, p);
    assert Piece("") + Pieces(s, p) == Pieces(s, p);
  }

  lemma DelimBehind(s: string, c: char, p: char -> bool)
    requires p(c)
    ensures Pieces(s + [c], p) == Pieces(s, p)
  {
    assert s + [c] == s + [c] + "";
    PiecesSplitAt(s, c, "", p);
    PiecesOfWhole("", p);
    assert Pieces(s, p) + [] == Pieces(s, p);
  }

  // The piece in front of a p, and the others.
  lemma HeadMaps(f: string -> seq<string>, p: char -> bool, x: string, c: char, rest: string)
    requires f("") == [] && p(c) && Free(x, p)
    ensures FlatMap(f, Pieces(x + [c] + rest, p)) == f(x) + FlatMap(f, Pieces(rest, p))
  {
    PiecesAfterPrefix(x, c, rest, p);
    FlatMapConcat(f, Piece(x), Pieces(rest, p));
    PieceMaps(f, x);
  }

  lemma FrontSpaceDrops(f: string -> seq<string>, p: char -> bool, c: char, s: string)
    requires SeesTrimmed(f) && IsSpace(c)
    ensures FlatMap(f, Pieces([c] + s, p)) == FlatMap(f, Pieces(s, p))
  {
    var i := First(s, p);
    if p(c) {
      DelimInFront(c, s, p);
    } else if i == |s| {
      PiecesOfWhole([c] + s, p);
      PiecesOfWhole(s, p);
      TrimAfterSpace(c, s);
      PieceMaps(f, [c] + s);
      PieceMaps(f, s);
    } else {
      var x, rest := s[..i], s[i + 1..];
      Regroup(s, i, s[i], "");
      assert [c] + s == ([c] + x) + [s[i]] + rest;
      TrimAfterSpace(c, x);
      HeadMaps(f, p, [c] + x, s[i], rest);
      HeadMaps(f, p, x, s[i], rest);
    }
  }

  lemma {:induction false} BackSpaceDrops(f: string -> seq<string>, p: char -> bool, s: string, c: char)
    requires SeesTrimmed(f) && IsSpace(c)
    ensures FlatMap(f, Pieces(s + [c], p)) == FlatMap(f, Pieces(s, p))
    decreases |s|
  {
    var i := First(s, p);
    if p(c) {
      DelimBehind(s, c, p);
    } else if i == |s| {
      PiecesOfWhole(s + [c], p);
      PiecesOfWhole(s, p);
      TrimBeforeSpace(s, c);
      PieceMaps(f, s + [c]);
      PieceMaps(f, s);
    } else {
      var x, rest := s[..i], s[i + 1..];
      Regroup(s, i, c, "");
      assert s + [c] == x + [s[i]] + (rest + [c]);
      HeadMaps(f, p, x, s[i], rest + [c]);
      HeadMaps(f, p, x, s[i], rest);
      BackSpaceDrops(f, p, rest, c);
    }
  }

  lemma {:induction false} TrimLeftMaps(f: string -> seq<string>, p: char -> bool, s: string)
    requires SeesTrimmed(f)
    ensures FlatMap(f, Pieces(TrimLeft(s), p)) == FlatMap(f, Pieces(s, p))
  {
    if s != "" && IsSpace(s[0]) {
      assert s == [s[0]] + s[1..];
      FrontSpaceDrops(f, p, s[0], s[1..]);
      TrimLeftMaps(f, p, s[1..]);
    }
  }

  lemma {:induction false} TrimRightMaps(f: string -> seq<string>, p: char -> bool, s: string)
    requires SeesTrimmed(f)
    ensures FlatMap(f, Pieces(TrimRight(s), p)) == FlatMap(f, Pieces(s, p))
  {
    if s != "" && IsSpace(s[|s| - 1]) {
      var init := s[..|s| - 1];
      assert s == init + [s[|s| - 1]];
      BackSpaceDrops(f, p, init, s[|s| - 1]);
      TrimRightMaps(f, p, init);
    }
  }

  // Trimming a text changes nothing a tokenizer that trims every part could see.
  lemma TrimMaps(f: string -> seq<string>, p: char -> bool, s: string)
    requires SeesTrimmed(f)
    ensures FlatMap(f, Pieces(Trim(s), p)) == FlatMap(f, Pieces(s, p))
  {
    TrimLeftMaps(f, p, s);
    TrimRightMaps(f, p, TrimLeft(s));
  }

  // ---- one part ----

  function Glue(xs: seq<string>): string { if xs == [] then "" else xs[0] + Glue(xs[1..]) }

  lemma {:induction false} WithoutHead(s: string, p: char -> bool)
    requires First(s, p) < |s|
    ensures Without(s, p) == s[..First(s, p)] + Without(s[First(s, p) + 1..], p)
  {
    if !p(s[0]) {
      var i, rest := First(s[1..], p), s[1..];
      WithoutHead(rest, p);
      assert rest[i + 1..] == s[i + 2..];
      assert [s[0]] + rest[..i] == s[..i + 1];
      Associates([s[0]], rest[..i], Without(s[i + 2..], p));
    }
  }

  lemma GlueHead(x: string, rest: seq<string>)
    ensures Glue(Piece(x) + rest) == x + Glue(rest)
  {
    if x != "" { assert ([x] + rest)[1..] == rest; } else { assert [] + rest == rest && x + Glue(rest) == Glue(rest); }
  }

  // Deleting the commas of a part runs its numerals together.
  lemma {:induction false} WithoutIsGlue(s: string, p: char -> bool)
    ensures Without(s, p) == Glue(Pieces(s, p))
    decreases |s|
  {
    var i := First(s, p);
    if i == |s| {
      WithoutNothing(s, p);
      assert s[..i] == s;
      GlueHead(s, []);
      assert Piece(s) + [] == Piece(s) && s + "" == s;
    } else {
      WithoutHead(s, p);
      WithoutIsGlue(s[i + 1..], p);
      GlueHead(s[..i], Pieces(s[i + 1..], p));
    }
  }

  lemma {:induction false} WithoutConcat(a: string, b: string, p: char -> bool)
    ensures Without(a + b, p) == Without(a, p) + Without(b, p)
  {
    if a == "" {
      assert a + b == b;
    } else {
      assert (a + b)[1..] == a[1..] + b;
      WithoutConcat(a[1..], b, p);
    }
  }

  lemma FlatMapFront(f: string -> seq<string>, xs: seq<string>)
    requires xs != []
    ensures FlatMap(f, xs) == f(xs[0]) + FlatMap(f, xs[1..])
  {
    assert xs == [xs[0]] + xs[1..];
    FlatMapConcat(f, [xs[0]], xs[1..]);
    FlatMapOne(f, xs[0]);
  }

  // Run together, pieces of which at most one is more than space still give that one.
  lemma {:induction false} GlueOfOne(xs: seq<string>)
    requires |FlatMap(Kept, xs)| <= 1
    ensures Kept(Glue(xs)) == FlatMap(Kept, xs)
    decreases |xs|
  {
    if xs == [] {
      NothingInNothing();
    } else {
      var x, rest := xs[0], xs[1..];
      FlatMapFront(Kept, xs);
      GlueOfOne(rest);
      if Kept(x) == [] {
        NothingKept(x);
        SpacesInFront(x, Glue(rest));
      } else {
        NothingKept(Glue(rest));
        SpacesBehind(x, Glue(rest));
      }
    }
  }

  lemma {:induction false} KeptTwice(xs: seq<string>)
    ensures FlatMap(Kept, FlatMap(Kept, xs)) == FlatMap(Kept, xs)
  {
    if xs != [] {
      var init, last := xs[..|xs| - 1], xs[|xs| - 1];
      KeptTwice(init);
      FlatMapConcat(Kept, FlatMap(Kept, init), Kept(last));
      TrimOk(last);
      TightStays(Trim(last));
      FlatMapOne(Kept, Trim(last));
    }
  }

  // A part without a dot falls apart at its commas.
  lemma DotlessPart(t: string)
    requires Trim(t) == t && ',' in t && '.' !in t
    ensures DotTokens(t) == PartNumerals(t)
  {
    KeptTwice(SplitEach(t, IsComma));
    NothingInNothing();
    SplitEachGivesPieces(Kept, t, IsComma);
  }

  // Any other part loses its commas and stays one token, if it is more than space.
  lemma OtherPart(t: string)
    requires Trim(t) == t && t != "" && (',' in t ==> '.' in t)
    ensures |DotTokens(t)| <= 1
    ensures |PartNumerals(t)| <= 1 ==> DotTokens(t) == PartNumerals(t)
  {
    WithoutIsGlue(t, IsComma);
    FlatMapOne(Kept, Without(t, IsComma));
    if |PartNumerals(t)| <= 1 { GlueOfOne(CommaPieces(t)); }
  }

  lemma OneWithoutComma(t: string)
    requires ',' !in t
    ensures |PartNumerals(t)| <= 1
  {
    PiecesOfWhole(t, IsComma);
    if t != "" { FlatMapOne(Kept, t); }
  }

  lemma TrimmedPart(part: string)
    ensures DotTokens(Trim(part)) == DotTokens(part) && PartNumerals(Trim(part)) == PartNumerals(part)
    ensures Unglued(Trim(part)) <==> Unglued(part)
    ensures Trim(Trim(part)) == Trim(part)
  {
    KeptAndTokensSeeTrimmed();
    TrimMaps(Kept, IsComma, part);
    TrimLeftKeepsOthers(part, '.');
    TrimRightKeepsOthers(TrimLeft(part), '.');
    TrimOk(part);
    TightStays(Trim(part));
  }

  // One part: its numerals if it is unglued, else fewer tokens than numerals.
  lemma PartDecides(part: string)
    ensures |DotTokens(part)| <= |PartNumerals(part)|
    ensures DotTokens(part) == PartNumerals(part) <==> Unglued(part)
    ensures !Unglued(part) ==> |DotTokens(part)| < |PartNumerals(part)|
  {
    var t := Trim(part);
    TrimmedPart(part);
    if t == "" {
      NothingInNothing();
    } else if ',' in t && '.' !in t {
      DotlessPart(t);
    } else {
      OtherPart(t);
      if ',' !in t { OneWithoutComma(t); }
    }
  }

  // ---- the whole text ----

  lemma {:induction false} PartsDecide(parts: seq<string>)
    ensures |FlatMap(DotTokens, parts)| <= |FlatMap(PartNumerals, parts)|
    ensures AllUnglued(parts) ==> FlatMap(DotTokens, parts) == FlatMap(PartNumerals, parts)
    ensures !AllUnglued(parts) ==> |FlatMap(DotTokens, parts)| < |FlatMap(PartNumerals, parts)|
  {
    if parts != [] {
      var init, last := parts[..|parts| - 1], parts[|parts| - 1];
      assert parts == init + [last];
      PartsDecide(init);
      PartDecides(last);
    }
  }

  // In the dot convention the tokens of a text are its numerals exactly when no part between
  // separators holds a dot together with two numerals: "1.085,1.083" runs into one wrong token.
  lemma TokensAreNumeralsExactlyWhen(s: string)
    ensures Tokens(s, false) == Numerals(s) <==> AllUnglued(Pieces(s, IsSep))
  {
    KeptAndTokensSeeTrimmed();
    SplitRunsGivesPieces(DotTokens, Trim(s), IsSep);
    TrimMaps(DotTokens, IsSep, s);
    NumeralsByParts(s);
    PartsDecide(Pieces(s, IsSep));
  }

  lemma {:induction false} PiecesAreWhole(s: string, p: char -> bool)
    ensures forall x | x in Pieces(s, p) :: x != "" && Free(x, p) && forall c | c in x :: c in s
    decreases |s|
  {
    var i := First(s, p);
    if i < |s| { PiecesAreWhole(s[i + 1..], p); }
  }

  lemma KeptWhole(xs: seq<string>)
    requires forall x | x in xs :: x != "" && Tight(x)
    ensures FlatMap(Kept, xs) == xs
  {
    forall x | x in xs ensures Kept(x) == [x] { TightStays(x); }
    FlatMapIdentity(Kept, xs);
  }

  // The extractor's list match ends at the first dot, so what it hands over never holds one: every
  // numeral is kept apart, and none has a fraction.
  lemma MatchedListsHoldWholeNumbers(s: string)
    requires '.' !in s
    ensures Tokens(s, false) == Numerals(s)
    ensures forall t | t in Tokens(s, false) :: '.' !in t
  {
    PiecesAreWhole(s, IsSep);
    TokensAreNumeralsExactlyWhen(s);
    PiecesAreWhole(s, IsDelim);
    forall t | t in Numerals(s) ensures '.' !in t {
      var x := FlatMapMember(Kept, Pieces(s, IsDelim), t);
      TrimOk(x);
    }
  }

  predicate Numeral(t: string) { t != "" && Free(t, IsDelim) && Free(t, IsSpace) }

  lemma WithoutTheComma(m: string, n: string)
    requires Numeral(m) && Numeral(n)
    ensures Without(m + "," + n, IsComma) == m + n
  {
    WithoutConcat(m + ",", n, IsComma);
    WithoutConcat(m, ",", IsComma);
    WithoutNothing(m, IsComma);
    WithoutNothing(n, IsComma);
    assert Without(",", IsComma) == "" && m + "" == m;
  }

  // The failing family in its smallest form: two numerals with only a comma between them, one dotted.
  lemma DottedPairIsGlued(m: string, n: string)
    requires Numeral(m) && Numeral(n) && ('.' in m || '.' in n)
    ensures Tokens(m + "," + n, false) == [m + n]
  {
    var s := m + "," + n;
    TightStays(s);
    SplitRunsGivesPieces(DotTokens, s, IsSep);
    PiecesOfWhole(s, IsSep);
    FlatMapOne(DotTokens, s);
    WithoutTheComma(m, n);
    assert RawTokens(s) == [m + n];
    FlatMapOne(Kept, m + n);
    TightStays(m + n);
  }

  // ---- lists written with proper delimiters ----

  // Numerals with the gap that follows each of them, but the last.
  datatype List = Last(numeral: string) | Link(numeral: string, gap: string, rest: List)

  // A run of commas and separators with at least one separator.
  predicate ProperGap(g: string) {
    (forall i | 0 <= i < |g| :: IsDelim(g[i])) && exists i | 0 <= i < |g| :: IsSep(g[i])
  }

  predicate Proper(l: List) {
    Numeral(l.numeral) && (l.Link? ==> ProperGap(l.gap) && Proper(l.rest))
  }

  function Text(l: List): string { if l.Last? then l.numeral else l.numeral + l.gap + Text(l.rest) }

  function Written(l: List): seq<string> { if l.Last? then [l.numeral] else [l.numeral] + Written(l.rest) }

  lemma {:induction false} LeadingRun(g: string, s: string, p: char -> bool)
    requires forall i | 0 <= i < |g| :: p(g[i])
    ensures Pieces(g + s, p) == Pieces(s, p)
  {
    if g == "" {
      assert g + s == s;
    } else {
      assert g + s == "" + [g[0]] + (g[1..] + s);
      PiecesSplitAt("", g[0], g[1..] + s, p);
      LeadingRun(g[1..], s, p);
    }
  }

  lemma NumeralThenGap(n: string, g: string, s: string, p: char -> bool)
    requires n != "" && Free(n, p) && g != "" && forall i | 0 <= i < |g| :: p(g[i])
    ensures Pieces(n + g + s, p) == [n] + Pieces(s, p)
  {
    assert n + g + s == n + [g[0]] + (g[1..] + s);
    PiecesSplitAt(n, g[0], g[1..] + s, p);
    PiecesOfWhole(n, p);
    LeadingRun(g[1..], s, p);
  }

  lemma {:induction false} NumeralsOfText(l: List)
    requires Proper(l)
    ensures Pieces(Text(l), IsDelim) == Written(l)
  {
    if l.Last? {
      PiecesOfWhole(l.numeral, IsDelim);
    } else {
      NumeralsOfText(l.rest);
      NumeralThenGap(l.numeral, l.gap, Text(l.rest), IsDelim);
    }
  }

  // At most one numeral in every part.
  ghost predicate Single(parts: seq<string>) { forall x | x in parts :: |CommaPieces(x)| <= 1 }

  lemma CommaInFront(s: string)
    requires Single(Pieces(s, IsSep))
    ensures Single(Pieces("," + s, IsSep))
  {
    var i, t := First(s, IsSep), "," + s;
    FirstUnique(t, IsSep, i + 1);
    assert t[..i + 1] == "" + "," + s[..i];
    PiecesSplitAt("", ',', s[..i], IsComma);
    PiecesOfWhole("", IsComma);
    if i < |s| { assert t[i + 2..] == s[i + 1..]; }
    if i > 0 { assert s[..i] in Pieces(s, IsSep); }
  }

  lemma {:induction false} GapInFront(g: string, s: string)
    requires (forall i | 0 <= i < |g| :: IsDelim(g[i])) && Single(Pieces(s, IsSep))
    ensures Single(Pieces(g + s, IsSep))
  {
    if g == "" {
      assert g + s == s;
    } else {
      GapInFront(g[1..], s);
      if IsSep(g[0]) {
        assert g + s == "" + [g[0]] + (g[1..] + s);
        PiecesSplitAt("", g[0], g[1..] + s, IsSep);
      } else {
        assert g + s == "," + (g[1..] + s);
        CommaInFront(g[1..] + s);
      }
    }
  }

  lemma RegroupGap(n: string, g: string, k: nat, s: string)
    requires k < |g|
    ensures n + g + s == (n + g[..k]) + [g[k]] + (g[k + 1..] + s)
  {
  }

  lemma NumeralAndCommas(n: string, commas: string)
    requires Numeral(n) && forall i | 0 <= i < |commas| :: IsComma(commas[i])
    ensures Pieces(n + commas, IsSep) == [n + commas] && CommaPieces(n + commas) == [n]
  {
    PiecesOfWhole(n + commas, IsSep);
    if commas == "" {
      assert n + commas == n;
      PiecesOfWhole(n, IsComma);
    } else {
      NumeralThenGap(n, commas, "", IsComma);
      assert n + commas + "" == n + commas;
      PiecesOfWhole("", IsComma);
    }
  }

  // The numeral, its commas up to the first separator, and the rest behind it.
  lemma NumeralInFront(n: string, g: string, s: string)
    requires Numeral(n) && ProperGap(g) && Single(Pieces(s, IsSep))
    ensures Single(Pieces(n + g + s, IsSep))
  {
    var k := First(g, IsSep);
    var commas, after := g[..k], g[k + 1..];
    RegroupGap(n, g, k, s);
    PiecesSplitAt(n + commas, g[k], after + s, IsSep);
    GapInFront(after, s);
    NumeralAndCommas(n, commas);
  }

  lemma {:induction false} ProperTextIsSingle(l: List)
    requires Proper(l)
    ensures Single(Pieces(Text(l), IsSep))
  {
    if l.Last? {
      PiecesOfWhole(l.numeral, IsSep);
      PiecesOfWhole(l.numeral, IsComma);
    } else {
      ProperTextIsSingle(l.rest);
      NumeralInFront(l.numeral, l.gap, Text(l.rest));
    }
  }

  lemma {:induction false} WrittenAreNumerals(l: List)
    requires Proper(l)
    ensures forall t | t in Written(l) :: Numeral(t)
  {
    if l.Link? { WrittenAreNumerals(l.rest); }
  }

  lemma {:induction false} FlatMapKeptIsNoLonger(xs: seq<string>)
    ensures |FlatMap(Kept, xs)| <= |xs|
  {
    if xs != [] { FlatMapKeptIsNoLonger(xs[..|xs| - 1]); }
  }

  lemma SinglePartsAreUnglued(parts: seq<string>)
    requires Single(parts)
    ensures AllUnglued(parts)
  {
    forall x | x in parts ensures Unglued(x) { FlatMapKeptIsNoLonger(CommaPieces(x)); }
  }

  // Numerals joined by any runs of commas and separators that each hold a separator come back
  // exactly as they were written.
  lemma ProperListsRoundTrip(l: List)
    requires Proper(l)
    ensures Tokens(Text(l), false) == Written(l)
  {
    NumeralsOfText(l);
    WrittenAreNumerals(l);
    KeptWhole(Written(l));
    ProperTextIsSingle(l);
    SinglePartsAreUnglued(Pieces(Text(l), IsSep));
    TokensAreNumeralsExactlyWhen(Text(l));
  }

  // ---- which characters divide a text ----

  lemma CommaTokensSeeTrimmed()
    ensures SeesTrimmed(CommaTokens)
  {
    assert Trim("") == "";
    forall x ensures Trim(Trim(x)) == Trim(x) {
      TrimOk(x);
      TightStays(Trim(x));
    }
  }

  lemma PartTokensSeeTrimmed(commaDecimal: bool)
    ensures SeesTrimmed(PartTokens(commaDecimal))
  {
    KeptAndTokensSeeTrimmed();
    CommaTokensSeeTrimmed();
  }

  lemma TokensOfPieces(s: string, commaDecimal: bool)
    ensures Tokens(s, commaDecimal) == FlatMap(PartTokens(commaDecimal), Pieces(s, IsSep))
  {
    var f := PartTokens(commaDecimal);
    PartTokensSeeTrimmed(commaDecimal);
    SplitRunsGivesPieces(f, Trim(s), IsSep);
    TrimMaps(f, IsSep, s);
  }

  lemma PiecesDivide(f: string -> seq<string>, a: string, c: char, b: string)
    requires IsSep(c)
    ensures FlatMap(f, Pieces(a + [c] + b, IsSep)) == FlatMap(f, Pieces(a, IsSep)) + FlatMap(f, Pieces(b, IsSep))
  {
    PiecesSplitAt(a, c, b, IsSep);
    FlatMapConcat(f, Pieces(a, IsSep), Pieces(b, IsSep));
  }

  // A semicolon, slash, bar, space, tab, line end or form feed divides every text, in both
  // conventions: the tokens are those of what stands before it and those of what stands behind it.
  lemma SeparatorsDivide(a: string, c: char, b: string, commaDecimal: bool)
    requires c == ';' || c == '/' || c == '|' || c == ' ' || c == '\t' || c == '\n' || c == '\r' || c == '\U{000C}'
    ensures Tokens(a + [c] + b, commaDecimal) == Tokens(a, commaDecimal) + Tokens(b, commaDecimal)
  {
    TokensOfPieces(a + [c] + b, commaDecimal);
    TokensOfPieces(a, commaDecimal);
    TokensOfPieces(b, commaDecimal);
    PiecesDivide(PartTokens(commaDecimal), a, c, b);
  }

  // White space around a text is ignored, also that which divides nothing.
  lemma OuterSpaceIsIgnored(c: char, s: string, commaDecimal: bool)
    requires c == ' ' || c == '\t' || c == '\U{000B}' || c == '\U{0085}' || c == '\U{00A0}' || c == '\U{2003}'
          || c == '\U{3000}'
    ensures Tokens([c] + s, commaDecimal) == Tokens(s, commaDecimal)
    ensures Tokens(s + [c], commaDecimal) == Tokens(s, commaDecimal)
  {
    var f := PartTokens(commaDecimal);
    TokensOfPieces([c] + s, commaDecimal);
    TokensOfPieces(s, commaDecimal);
    TokensOfPieces(s + [c], commaDecimal);
    PartTokensSeeTrimmed(commaDecimal);
    FrontSpaceDrops(f, IsSep, c, s);
    BackSpaceDrops(f, IsSep, s, c);
  }

  predicate Digit(c: char) { '0' <= c <= '9' }

  // Digits, with a mark anywhere between them.
  predicate PlainNumber(t: string, mark: char) { t != "" && forall i | 0 <= i < |t| :: Digit(t[i]) || t[i] == mark }

  lemma PlainNumberIsFree(t: string, mark: char)
    requires PlainNumber(t, mark) && (mark == '.' || mark == ',')
    ensures Free(t, IsSep) && Tight(t) && (mark == '.' ==> Settled(t))
  {
  }

  lemma OnePart(t: string, commaDecimal: bool)
    requires t != "" && Free(t, IsSep)
    ensures Tokens(t, commaDecimal) == PartTokens(commaDecimal)(t)
  {
    TokensOfPieces(t, commaDecimal);
    PiecesOfWhole(t, IsSep);
    FlatMapOne(PartTokens(commaDecimal), t);
  }

  // A number with a decimal point is one token, as it is.
  lemma PointNumberStays(t: string)
    requires PlainNumber(t, '.')
    ensures Tokens(t, false) == [t]
  {
    PlainNumberIsFree(t, '.');
    OnePart(t, false);
    SettledPartStays(t, false);
  }

  // One with a decimal comma becomes the same number with a point.
  lemma CommaNumberTurnsPoint(t: string, u: string)
    requires PlainNumber(t, ',') && |u| == |t| && forall i | 0 <= i < |t| :: u[i] == if t[i] == ',' then '.' else t[i]
    ensures Tokens(t, true) == [u]
  {
    PlainNumberIsFree(t, ',');
    OnePart(t, true);
    TightStays(t);
    assert CommasToDots(t) == u;
  }

  // In the point convention a comma divides whole numbers.  Next to a point it is taken for a
  // thousands separator and deleted.
  lemma CommaDivides(m: string, n: string)
    requires PlainNumber(m, '.') && PlainNumber(n, '.') && '.' !in m && '.' !in n
    ensures Tokens(m + "," + n, false) == [m, n]
  {
    PlainNumberIsFree(m, '.');
    PlainNumberIsFree(n, '.');
    MatchedListsHoldWholeNumbers(m + "," + n);
    PiecesSplitAt(m, ',', n, IsDelim);
    PiecesOfWhole(m, IsDelim);
    PiecesOfWhole(n, IsDelim);
    assert [m] + [n] == [m, n];
    KeptWhole([m, n]);
  }

  lemma CommaIsDeleted(m: string, n: string)
    requires PlainNumber(m, '.') && PlainNumber(n, '.') && ('.' in m || '.' in n)
    ensures Tokens(m + "," + n, false) == [m + n]
  {
    PlainNumberIsFree(m, '.');
    PlainNumberIsFree(n, '.');
    DottedPairIsGlued(m, n);
  }
}
