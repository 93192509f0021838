/**
  The number-list tokenizer of the take-profit extractor (parser.go, parseNumberList).
*/
module NumberList {

  // RE2's \s together with the list delimiters ; / |
  predicate IsSep(c: char) {
    c == ';' || c == '/' || c == '|' || c == ' ' || c == '\t' || c == '\n' || c == '\r' || c == '\U{000C}'
  }

  predicate IsComma(c: char) { c == ',' }

  predicate IsDelim(c: char) { IsSep(c) || IsComma(c) }

  // unicode.IsSpace, which strings.TrimSpace uses: wider than \s.
  predicate IsSpace(c: char) {
    || c == ' ' || c == '\t' || c == '\n' || c == '\r' || c == '\U{000B}' || c == '\U{000C}'
    || c == '\U{0085}' || c == '\U{00A0}' || c == '\U{1680}' || '\U{2000}' <= c <= '\U{200A}'
    || c == '\U{2028}' || c == '\U{2029}' || c == '\U{202F}' || c == '\U{205F}' || c == '\U{3000}'
  }

  function TrimLeft(s: string): string { if s != "" && IsSpace(s[0]) then TrimLeft(s[1..]) else s }

  function TrimRight(s: string): string {
    if s != "" && IsSpace(s[|s| - 1]) then TrimRight(s[..|s| - 1]) else s
  }

  function Trim(s: string): string { TrimRight(TrimLeft(s)) }

  // Position of the first character satisfying p, or the length.
  function First(s: string, p: char -> bool): (i: nat)
    ensures i <= |s| && (forall j | 0 <= j < i :: !p(s[j])) && (i < |s| ==> p(s[i]))
  {
    if s == "" || p(s[0]) then 0 else 1 + First(s[1..], p)
  }

  // strings.Split at every character satisfying p.
  function SplitEach(s: string, p: char -> bool): seq<string>
    decreases |s|
  {
    var i := First(s, p);
    if i == |s| then [s] else [s[..i]] + SplitEach(s[i + 1..], p)
  }

  function DropWhile(s: string, p: char -> bool): (r: string)
    ensures |r| <= |s|
  {
    if s != "" && p(s[0]) then DropWhile(s[1..], p) else s
  }

  // Regexp.Split at every maximal run of characters satisfying p.
  function SplitRuns(s: string, p: char -> bool): seq<string>
    decreases |s|
  {
    var i := First(s, p);
    if i == |s| then [s] else [s[..i]] + SplitRuns(DropWhile(s[i + 1..], p), p)
  }

  function FlatMap(f: string -> seq<string>, xs: seq<string>): seq<string> {
    if xs == [] then [] else FlatMap(f, xs[..|xs| - 1]) + f(xs[|xs| - 1])
  }

  // `part = TrimSpace(part); if part != ""`
  function Kept(x: string): seq<string> { if Trim(x) == "" then [] else [Trim(x)] }

  function Without(s: string, p: char -> bool): string {
    if s == "" then "" else (if p(s[0]) then "" else [s[0]]) + Without(s[1..], p)
  }

  function CommasToDots(s: string): (r: string)
    ensures |r| == |s| && forall i | 0 <= i < |s| :: r[i] == if s[i] == ',' then '.' else s[i]
  {
    if s == "" then "" else [if s[0] == ',' then '.' else s[0]] + CommasToDots(s[1..])
  }

  // What one delimiter-free part contributes before the final clean-up (dot convention).
  function RawTokens(part: string): seq<string> {
    var t := Trim(part);
    if t == "" then []
    else if ',' in t && '.' !in t then FlatMap(Kept, SplitEach(t, IsComma))
    else [Without(t, IsComma)]
  }

  function DotTokens(part: string): seq<string> { FlatMap(Kept, RawTokens(part)) }

  function CommaTokens(part: string): seq<string> {
    var t := Trim(part);
    if t == "" then [] else [CommasToDots(t)]
  }

  function PartTokens(commaDecimal: bool): string -> seq<string> {
    if commaDecimal then CommaTokens else DotTokens
  }

  function Tokens(listStr: string, commaDecimal: bool): seq<string> {
    FlatMap(PartTokens(commaDecimal), SplitRuns(Trim(listStr), IsSep))
  }

  // ---- FlatMap ----

  lemma {:induction false} FlatMapConcat(f: string -> seq<string>, a: seq<string>, b: seq<string>)
    ensures FlatMap(f, a + b) == FlatMap(f, a) + FlatMap(f, b)
  {
    if b == [] {
      assert a + b == a;
    } else {
      assert (a + b)[..|a + b| - 1] == a + b[..|b| - 1];
      FlatMapConcat(f, a, b[..|b| - 1]);
    }
  }

  lemma {:induction false} FlatMapComposes(f: string -> seq<string>, g: string -> seq<string>, h: string -> seq<string>,
                                           xs: seq<string>)
    requires forall x :: h(x) == FlatMap(f, g(x))
    ensures FlatMap(f, FlatMap(g, xs)) == FlatMap(h, xs)
  {
    if xs != [] {
      FlatMapComposes(f, g, h, xs[..|xs| - 1]);
      FlatMapConcat(f, FlatMap(g, xs[..|xs| - 1]), g(xs[|xs| - 1]));
    }
  }

  // ---- the code ----

  method KeepNonEmpty(xs: seq<string>) returns (kept: seq<string>)
    ensures kept == FlatMap(Kept, xs)
  {
    kept := [];
    for i := 0 to |xs|
      invariant kept == FlatMap(Kept, xs[..i])
    {
      var x := Trim(xs[i]);
      if x != "" { kept := kept + [x]; }
      assert xs[..i + 1][..i] == xs[..i];
    }
    assert xs[..|xs|] == xs;
  }

  method ParseNumberList(listStr: string, commaDecimal: bool) returns (cleaned: seq<string>)
    ensures cleaned == Tokens(listStr, commaDecimal)
  {
    var parts := SplitRuns(Trim(listStr), IsSep);
    cleaned := [];
    if commaDecimal {
      for i := 0 to |parts|
        invariant cleaned == FlatMap(CommaTokens, parts[..i])
      {
        var part := Trim(parts[i]);
        if part != "" { cleaned := cleaned + [CommasToDots(part)]; }
        assert parts[..i + 1][..i] == parts[..i];
      }
      assert parts[..|parts|] == parts;
      return;
    }
    var finalParts: seq<string> := [];
    for i := 0 to |parts|
      invariant finalParts == FlatMap(RawTokens, parts[..i])
    {
      var part := Trim(parts[i]);
      if part != "" {
        if ',' in part && '.' !in part {
          var kept := KeepNonEmpty(SplitEach(part, IsComma));
          finalParts := finalParts + kept;
        } else {
          finalParts := finalParts + [Without(part, IsComma)];
        }
      }
      assert parts[..i + 1][..i] == parts[..i];
    }
    assert parts[..|parts|] == parts;
    cleaned := KeepNonEmpty(finalParts);
    FlatMapComposes(Kept, RawTokens, DotTokens, parts);
  }

  // ---- pieces: the maximal runs without p ----

  // x as a piece, unless it is empty.
  function Piece(x: string): seq<string> { if x == "" then [] else [x] }

  // The first piece, or nothing when the string starts with p.
  function Head(s: string, p: char -> bool): seq<string> { Piece(s[..First(s, p)]) }

  function Pieces(s: string, p: char -> bool): seq<string>
    decreases |s|
  {
    var i := First(s, p);
    if i == |s| then Head(s, p) else Head(s, p) + Pieces(s[i + 1..], p)
  }

  lemma FirstUnique(s: string, p: char -> bool, i: nat)
    requires i <= |s| && (forall j | 0 <= j < i :: !p(s[j])) && (i < |s| ==> p(s[i]))
    ensures First(s, p) == i
  {
  }

  lemma PiecesOfWhole(s: string, p: char -> bool)
    requires forall i | 0 <= i < |s| :: !p(s[i])
    ensures Pieces(s, p) == if s == "" then [] else [s]
  {
    FirstUnique(s, p, |s|);
    assert s[..|s|] == s;
  }

  // A prefix without p, one p, and the rest.
  lemma PiecesAfterPrefix(x: string, c: char, rest: string, p: char -> bool)
    requires p(c) && forall j | 0 <= j < |x| :: !p(x[j])
    ensures Pieces(x + [c] + rest, p) == Piece(x) + Pieces(rest, p)
  {
    var s := x + [c] + rest;
    FirstUnique(s, p, |x|);
    assert s[..|x|] == x && s[|x| + 1..] == rest;
  }

  lemma Regroup(a: string, i: nat, c: char, b: string)
    requires i < |a|
    ensures a == a[..i] + [a[i]] + a[i + 1..]
    ensures a + [c] + b == a[..i] + [a[i]] + (a[i + 1..] + [c] + b)
  {
  }

  lemma Associates<T>(u: seq<T>, v: seq<T>, w: seq<T>)
    ensures u + (v + w) == (u + v) + w
  {
  }

  lemma {:induction false} PiecesSplitAt(a: string, c: char, b: string, p: char -> bool)
    requires p(c)
    ensures Pieces(a + [c] + b, p) == Pieces(a, p) + Pieces(b, p)
    decreases |a|
  {
    var i := First(a, p);
    if i == |a| {
      PiecesAfterPrefix(a, c, b, p);
      PiecesOfWhole(a, p);
    } else {
      PiecesSplitAt(a[i + 1..], c, b, p);
      Regroup(a, i, c, b);
      PiecesAfterPrefix(a[..i], a[i], a[i + 1..], p);
      PiecesAfterPrefix(a[..i], a[i], a[i + 1..] + [c] + b, p);
      Associates(Piece(a[..i]), Pieces(a[i + 1..], p), Pieces(b, p));
    }
  }

  lemma {:induction false} PiecesDropWhile(s: string, p: char -> bool)
    ensures Pieces(DropWhile(s, p), p) == Pieces(s, p)
  {
    if s != "" && p(s[0]) {
      PiecesDropWhile(s[1..], p);
      assert s == "" + [s[0]] + s[1..];
      PiecesSplitAt("", s[0], s[1..], p);
    }
  }

  lemma FlatMapOne(f: string -> seq<string>, x: string)
    ensures FlatMap(f, [x]) == f(x)
  {
    assert FlatMap(f, [x][..0]) == [];
  }

  lemma HeadIsFirstPart(f: string -> seq<string>, s: string, p: char -> bool)
    requires f("") == []
    ensures FlatMap(f, Head(s, p)) == f(s[..First(s, p)])
  {
    FlatMapOne(f, s[..First(s, p)]);
    assert s[..0] == "";
  }

  // Both ways of splitting give the pieces, once empty strings are ignored.
  lemma {:induction false} SplitRunsGivesPieces(f: string -> seq<string>, s: string, p: char -> bool)
    requires f("") == []
    ensures FlatMap(f, SplitRuns(s, p)) == FlatMap(f, Pieces(s, p))
    decreases |s|
  {
    var i := First(s, p);
    HeadIsFirstPart(f, s, p);
    FlatMapOne(f, s[..i]);
    if i == |s| {
      assert s[..i] == s;
    } else {
      var rest := DropWhile(s[i + 1..], p);
      SplitRunsGivesPieces(f, rest, p);
      PiecesDropWhile(s[i + 1..], p);
      FlatMapConcat(f, [s[..i]], SplitRuns(rest, p));
      FlatMapConcat(f, Head(s, p), Pieces(s[i + 1..], p));
    }
  }

  lemma {:induction false} SplitEachGivesPieces(f: string -> seq<string>, s: string, p: char -> bool)
    requires f("") == []
    ensures FlatMap(f, SplitEach(s, p)) == FlatMap(f, Pieces(s, p))
    decreases |s|
  {
    var i := First(s, p);
    HeadIsFirstPart(f, s, p);
    FlatMapOne(f, s[..i]);
    if i == |s| {
      assert s[..i] == s;
    } else {
      SplitEachGivesPieces(f, s[i + 1..], p);
      FlatMapConcat(f, [s[..i]], SplitEach(s[i + 1..], p));
      FlatMapConcat(f, Head(s, p), Pieces(s[i + 1..], p));
    }
  }
}
