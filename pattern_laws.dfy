/**
 * What the three patterns of get_module_io.py (lines 122, 124-125) recognise, stated against
 * the text they are applied to: the lookbehind is the only context a match depends on, and a
 * declaration written out in the conventional form is recognised with exactly its parts.
 */
module PatternLaws {
  import opened Wrappers
  import opened Chars
  import opened Patterns

  // ---------------------------------------------------------------------------
  // The lookbehind: a keyword preceded by a space, `/`, a letter or `_` is never
  // matched; otherwise the match depends only on the text from the keyword on.
  // ---------------------------------------------------------------------------

  lemma PortAt(text: string, pos: nat, d: Direction)
    requires 0 < pos <= |text|
    ensures MatchPort(text, pos, d)
         == if BlocksKeyword(text[pos - 1]) then None else Located(PortBody(text[pos..], Keyword(d)), pos)
  {
  }

  lemma PrefixFacts(prefix: string, s: string)
    requires prefix != []
    ensures (prefix + s)[|prefix| - 1] == prefix[|prefix| - 1]
    ensures (prefix + s)[|prefix|..] == s
  {
  }

  lemma PortAtStart(s: string, d: Direction)
    ensures MatchPort(s, 0, d) == Located(PortBody(s, Keyword(d)), 0)
  {
    assert s[0..] == s;
  }

  lemma HeaderAt(text: string, pos: nat)
    requires 0 < pos <= |text|
    ensures MatchHeader(text, pos)
         == if BlocksKeyword(text[pos - 1]) then None else Located(HeaderBody(text[pos..]), pos)
  {
  }

  lemma HeaderAtStart(s: string)
    ensures MatchHeader(s, 0) == Located(HeaderBody(s), 0)
  {
    assert s[0..] == s;
  }

  // ---------------------------------------------------------------------------
  // Round trip of a port declaration
  // ---------------------------------------------------------------------------

  /**
   * The parts of a port declaration written in the usual way: an optional storage qualifier,
   * up to two dimensions (a second only after a first) and an identifier for the name.
   */
  predicate Canonical(c: PortCapture) {
    && c.storage in {"", "wire", "reg"}
    && DimOrEmpty(c.dimA) && DimOrEmpty(c.dimB)
    && (c.dimB != "" ==> c.dimA != "")
    && IsIdent(c.name)
  }

  function Spaced(part: string): string {
    if part == "" then "" else part + " "
  }

  /** The declaration as it stands in a port list, e.g. `input wire [7:0] data,`. */
  function Render(d: Direction, c: PortCapture): string {
    Concat(Parts(d, c))
  }

  /** The pieces of a declaration, in the order they are written; an absent part is empty. */
  function Parts(d: Direction, c: PortCapture): seq<string> {
    [Keyword(d), " ", Spaced(c.storage), Spaced(c.dimA), Spaced(c.dimB), c.name, ","]
  }

  /** The pieces written one after another. */
  function Concat(pieces: seq<string>): string
    decreases |pieces|
  {
    if pieces == [] then [] else Concat(pieces[..|pieces| - 1]) + pieces[|pieces| - 1]
  }

  lemma ConcatSnoc(pieces: seq<string>, p: string)
    ensures Concat(pieces + [p]) == Concat(pieces) + p
  {
    assert (pieces + [p])[..|pieces|] == pieces;
  }

  lemma ConcatSeven(p0: string, p1: string, p2: string, p3: string, p4: string, p5: string, p6: string)
    ensures Concat([p0, p1, p2, p3, p4, p5, p6]) == p0 + p1 + p2 + p3 + p4 + p5 + p6
  {
    ConcatSnoc([], p0);
    assert [] + [p0] == [p0];
    assert [] + p0 == p0;
    ConcatSnoc([p0], p1);
    assert [p0] + [p1] == [p0, p1];
    ConcatSnoc([p0, p1], p2);
    assert [p0, p1] + [p2] == [p0, p1, p2];
    ConcatSnoc([p0, p1, p2], p3);
    assert [p0, p1, p2] + [p3] == [p0, p1, p2, p3];
    ConcatSnoc([p0, p1, p2, p3], p4);
    assert [p0, p1, p2, p3] + [p4] == [p0, p1, p2, p3, p4];
    ConcatSnoc([p0, p1, p2, p3, p4], p5);
    assert [p0, p1, p2, p3, p4] + [p5] == [p0, p1, p2, p3, p4, p5];
    ConcatSnoc([p0, p1, p2, p3, p4, p5], p6);
    assert [p0, p1, p2, p3, p4, p5] + [p6] == [p0, p1, p2, p3, p4, p5, p6];
  }

  lemma RenderIs(d: Direction, c: PortCapture)
    ensures Render(d, c) == Keyword(d) + " " + Spaced(c.storage) + Spaced(c.dimA) + Spaced(c.dimB) + c.name + ","
  {
    ConcatSeven(Keyword(d), " ", Spaced(c.storage), Spaced(c.dimA), Spaced(c.dimB), c.name, ",");
  }

  // Where each part of a rendered declaration begins.
  function StorageStart(d: Direction): nat { |Keyword(d)| + 1 }
  function DimAStart(d: Direction, c: PortCapture): nat { StorageStart(d) + |Spaced(c.storage)| }
  function DimBStart(d: Direction, c: PortCapture): nat { DimAStart(d, c) + |Spaced(c.dimA)| }
  function NameStart(d: Direction, c: PortCapture): nat { DimBStart(d, c) + |Spaced(c.dimB)| }
  // And where it ends.
  function StorageEnd(d: Direction, c: PortCapture): nat { StorageStart(d) + |c.storage| }
  function DimAEnd(d: Direction, c: PortCapture): nat { DimAStart(d, c) + |c.dimA| }
  function DimBEnd(d: Direction, c: PortCapture): nat { DimBStart(d, c) + |c.dimB| }
  function NameEnd(d: Direction, c: PortCapture): nat { NameStart(d, c) + |c.name| }

  // ---------------------------------------------------------------------------
  // The matcher stage by stage, on a text described by where its parts begin and end.
  // ---------------------------------------------------------------------------

  /** A name runs from `n` to `e`, where a comma closes it. */
  predicate NameAt(s: string, n: nat, e: nat) {
    && n < e < |s|
    && SkipSpaces(s, n) == n && Dimension(s, n) == None
    && Span(s, n, Name) == e && Span(s, n, Ident) == e
    && SkipSpaces(s, e) == e && s[e] == ','
  }

  /** A dimension token runs from `a` to `b` (there is none when `a == b`); the next part starts at `next`. */
  predicate DimAt(s: string, a: nat, b: nat, next: nat) {
    if a == b then next == a
    else a < b <= next <= |s| && Dimension(s, a) == Some(b) && SkipSpaces(s, b) == next
  }

  /** The storage group gives nothing at `q`: either no qualifier stands there, or nothing of the pattern follows it. */
  predicate NoQualifier(s: string, q: nat)
    requires q <= |s|
  {
    Qualifier(s, q).None? || MatchFrom(s, Qualifier(s, q).value, FirstDim, Started(s[q..Qualifier(s, q).value])).None?
  }

  lemma NameStage(s: string, i: nat, n: nat, e: nat, acc: PortCapture)
    requires NameAt(s, n, e) && i <= n && SkipSpaces(s, i) == n
    ensures MatchFrom(s, i, PortName, acc) == Some((acc.(name := s[n..e]), e + 1))
  {
  }

  /** A dimension is kept when the rest of the pattern matches after it. */
  lemma DimKept(s: string, i: nat, a: nat, b: nat, g: Group, acc: PortCapture, x: (PortCapture, nat))
    requires g != PortName && i <= a < b <= |s| && SkipSpaces(s, i) == a && Dimension(s, a) == Some(b)
    requires g == SecondDim ==> MatchFrom(s, b, PortName, acc.(dimB := s[a..b])) == Some(x)
    requires g == FirstDim ==> MatchFrom(s, b, SecondDim, acc.(dimA := s[a..b])) == Some(x)
    ensures MatchFrom(s, i, g, acc) == Some(x)
  {
  }

  /** Where no dimension starts, the rest of the pattern is read from the first non-space character. */
  lemma DimSkipped(s: string, i: nat, n: nat, g: Group, acc: PortCapture, x: (PortCapture, nat))
    requires g != PortName && i <= n <= |s| && SkipSpaces(s, i) == n && Dimension(s, n) == None
    requires g == SecondDim ==> MatchFrom(s, n, PortName, acc) == Some(x)
    requires g == FirstDim ==> MatchFrom(s, n, SecondDim, acc) == Some(x)
    ensures MatchFrom(s, i, g, acc) == Some(x)
  {
  }

  lemma SecondFrom(s: string, i: nat, a: nat, b: nat, n: nat, e: nat, acc: PortCapture)
    requires NameAt(s, n, e) && DimAt(s, a, b, n) && i <= a && SkipSpaces(s, i) == a && acc.dimB == ""
    ensures MatchFrom(s, i, SecondDim, acc) == Some((acc.(dimB := s[a..b], name := s[n..e]), e + 1))
  {
    if a == b {
      assert acc.(dimB := s[a..b]) == acc;
      NameStage(s, a, a, e, acc);
      DimSkipped(s, i, a, SecondDim, acc, (acc.(name := s[n..e]), e + 1));
    } else {
      NameStage(s, b, n, e, acc.(dimB := s[a..b]));
      DimKept(s, i, a, b, SecondDim, acc, (acc.(dimB := s[a..b], name := s[n..e]), e + 1));
    }
  }

  lemma FirstFrom(s: string, i: nat, a: nat, b: nat, a2: nat, b2: nat, n: nat, e: nat, acc: PortCapture)
    requires NameAt(s, n, e) && DimAt(s, a2, b2, n) && DimAt(s, a, b, a2) && (a == b ==> a2 == b2)
    requires i <= a && SkipSpaces(s, i) == a && acc.dimA == "" && acc.dimB == ""
    ensures MatchFrom(s, i, FirstDim, acc)
         == Some((acc.(dimA := s[a..b], dimB := s[a2..b2], name := s[n..e]), e + 1))
  {
    if a == b {
      assert acc.(dimA := s[a..b]) == acc;
      SecondFrom(s, a, a, a, a, e, acc);
      DimSkipped(s, i, a, FirstDim, acc, (acc.(dimB := s[a2..b2], name := s[n..e]), e + 1));
    } else {
      SecondFrom(s, b, a2, b2, n, e, acc.(dimA := s[a..b]));
      DimKept(s, i, a, b, FirstDim, acc, (acc.(dimA := s[a..b], dimB := s[a2..b2], name := s[n..e]), e + 1));
    }
  }

  /** A storage qualifier is kept when the rest of the pattern follows it. */
  lemma BodyQualified(s: string, kw: string, q: nat, r: nat, x: (PortCapture, nat))
    requires StartsWith(s, 0, kw) && |kw| < q <= |s| && SkipSpaces(s, |kw|) == q && Qualifier(s, q) == Some(r)
    requires MatchFrom(s, r, FirstDim, Started(s[q..r])) == Some(x)
    ensures PortBody(s, kw) == Some(x)
  {
  }

  /** Otherwise the rest of the pattern is read from the first non-space character after the keyword. */
  lemma BodyUnqualified(s: string, kw: string, q: nat, x: (PortCapture, nat))
    requires StartsWith(s, 0, kw) && |kw| < q <= |s| && SkipSpaces(s, |kw|) == q && NoQualifier(s, q)
    requires MatchFrom(s, q, FirstDim, Started("")) == Some(x)
    ensures PortBody(s, kw) == Some(x)
  {
  }

  // ---------------------------------------------------------------------------
  // The whole pattern on a text laid out part by part.
  // ---------------------------------------------------------------------------

  /**
   * `s` starts with the keyword `kw`, then holds the parts of `c`: the storage qualifier from `q`
   * to `r`, the dimensions from `a` to `b` and from `a2` to `b2` and the name from `n` to `e`,
   * an absent part taking no room.
   */
  predicate LaidOut(s: string, kw: string, c: PortCapture, q: nat, r: nat, a: nat, b: nat, a2: nat, b2: nat, n: nat, e: nat) {
    && NameAt(s, n, e) && DimAt(s, a2, b2, n) && DimAt(s, a, b, a2) && (a == b ==> a2 == b2)
    && StartsWith(s, 0, kw) && |kw| < q <= r <= a && SkipSpaces(s, |kw|) == q
    && (q < r ==> Qualifier(s, q) == Some(r) && SkipSpaces(s, r) == a)
    && (q == r ==> a == q && NoQualifier(s, q))
    && c == PortCapture(s[q..r], s[a..b], s[a2..b2], s[n..e])
  }

  /** The whole port pattern on a text laid out part by part: each group captures the slice of its part. */
  lemma BodyFrom(s: string, kw: string, c: PortCapture, q: nat, r: nat, a: nat, b: nat, a2: nat, b2: nat, n: nat, e: nat, len: nat)
    requires LaidOut(s, kw, c, q, r, a, b, a2, b2, n, e) && len == e + 1
    ensures PortBody(s, kw) == Some((c, len))
  {
    if q < r {
      FirstFrom(s, r, a, b, a2, b2, n, e, Started(s[q..r]));
      BodyQualified(s, kw, q, r, (c, e + 1));
    } else {
      assert s[q..r] == "";
      FirstFrom(s, q, a, b, a2, b2, n, e, Started(""));
      BodyUnqualified(s, kw, q, (c, e + 1));
    }
  }

  // ---------------------------------------------------------------------------
  // The rendered text, piece by piece: `kw + " " + st + dA + dB + nm + "," + tail`.
  // ---------------------------------------------------------------------------

  lemma LastPiece(u: string, v: string)
    ensures (u + v)[|u|..|u| + |v|] == v
  {
  }

  lemma PieceKept(p: string, x: string, i: nat, v: string)
    requires i + |v| <= |p| && p[i..i + |v|] == v
    ensures (p + x)[i..i + |v|] == v
  {
    assert (p + x)[i..i + |v|] == p[i..i + |v|];
  }

  lemma KeywordPiece(kw: string, st: string, dA: string, dB: string, nm: string, tail: string)
    ensures var s := kw + " " + st + dA + dB + nm + "," + tail;
            StartsWith(s, 0, kw) && |kw| < |s| && s[|kw|] == ' '
  {
    assert kw[0..|kw|] == kw;
    PieceKept(kw, " ", 0, kw);
    PieceKept(kw + " ", st, 0, kw);
    PieceKept(kw + " " + st, dA, 0, kw);
    PieceKept(kw + " " + st + dA, dB, 0, kw);
    PieceKept(kw + " " + st + dA + dB, nm, 0, kw);
    PieceKept(kw + " " + st + dA + dB + nm, ",", 0, kw);
    PieceKept(kw + " " + st + dA + dB + nm + ",", tail, 0, kw);
  }

  lemma StoragePiece(kw: string, st: string, dA: string, dB: string, nm: string, tail: string)
    ensures var s := kw + " " + st + dA + dB + nm + "," + tail; var i := |kw| + 1;
            i + |st| <= |s| && s[i..i + |st|] == st
  {
    var i := |kw| + 1;
    LastPiece(kw + " ", st);
    PieceKept(kw + " " + st, dA, i, st);
    PieceKept(kw + " " + st + dA, dB, i, st);
    PieceKept(kw + " " + st + dA + dB, nm, i, st);
    PieceKept(kw + " " + st + dA + dB + nm, ",", i, st);
    PieceKept(kw + " " + st + dA + dB + nm + ",", tail, i, st);
  }

  lemma DimAPiece(kw: string, st: string, dA: string, dB: string, nm: string, tail: string)
    ensures var s := kw + " " + st + dA + dB + nm + "," + tail; var i := |kw| + 1 + |st|;
            i + |dA| <= |s| && s[i..i + |dA|] == dA
  {
    var i := |kw| + 1 + |st|;
    LastPiece(kw + " " + st, dA);
    PieceKept(kw + " " + st + dA, dB, i, dA);
    PieceKept(kw + " " + st + dA + dB, nm, i, dA);
    PieceKept(kw + " " + st + dA + dB + nm, ",", i, dA);
    PieceKept(kw + " " + st + dA + dB + nm + ",", tail, i, dA);
  }

  lemma DimBPiece(kw: string, st: string, dA: string, dB: string, nm: string, tail: string)
    ensures var s := kw + " " + st + dA + dB + nm + "," + tail; var i := |kw| + 1 + |st| + |dA|;
            i + |dB| <= |s| && s[i..i + |dB|] == dB
  {
    var i := |kw| + 1 + |st| + |dA|;
    LastPiece(kw + " " + st + dA, dB);
    PieceKept(kw + " " + st + dA + dB, nm, i, dB);
    PieceKept(kw + " " + st + dA + dB + nm, ",", i, dB);
    PieceKept(kw + " " + st + dA + dB + nm + ",", tail, i, dB);
  }

  lemma NamePiece(kw: string, st: string, dA: string, dB: string, nm: string, tail: string)
    ensures var s := kw + " " + st + dA + dB + nm + "," + tail; var i := |kw| + 1 + |st| + |dA| + |dB|;
            i + |nm| < |s| && s[i..i + |nm|] == nm && s[i + |nm|] == ','
  {
    var i := |kw| + 1 + |st| + |dA| + |dB|;
    LastPiece(kw + " " + st + dA + dB, nm);
    PieceKept(kw + " " + st + dA + dB + nm, ",", i, nm);
    PieceKept(kw + " " + st + dA + dB + nm + ",", tail, i, nm);
  }

  // The same pieces in a rendered declaration, at the positions its parts are given.

  lemma RenderedKeyword(d: Direction, c: PortCapture, tail: string)
    ensures var s := Render(d, c) + tail;
            StartsWith(s, 0, Keyword(d)) && StorageStart(d) < |s| && s[|Keyword(d)|] == ' '
  {
    RenderIs(d, c);
    KeywordPiece(Keyword(d), Spaced(c.storage), Spaced(c.dimA), Spaced(c.dimB), c.name, tail);
  }

  lemma RenderedStorage(d: Direction, c: PortCapture, tail: string)
    ensures var s := Render(d, c) + tail;
            DimAStart(d, c) <= |s| && s[StorageStart(d)..DimAStart(d, c)] == Spaced(c.storage)
  {
    RenderIs(d, c);
    StoragePiece(Keyword(d), Spaced(c.storage), Spaced(c.dimA), Spaced(c.dimB), c.name, tail);
  }

  lemma RenderedDimA(d: Direction, c: PortCapture, tail: string)
    ensures var s := Render(d, c) + tail;
            DimBStart(d, c) <= |s| && s[DimAStart(d, c)..DimBStart(d, c)] == Spaced(c.dimA)
  {
    RenderIs(d, c);
    DimAPiece(Keyword(d), Spaced(c.storage), Spaced(c.dimA), Spaced(c.dimB), c.name, tail);
  }

  lemma RenderedDimB(d: Direction, c: PortCapture, tail: string)
    ensures var s := Render(d, c) + tail;
            NameStart(d, c) <= |s| && s[DimBStart(d, c)..NameStart(d, c)] == Spaced(c.dimB)
  {
    RenderIs(d, c);
    DimBPiece(Keyword(d), Spaced(c.storage), Spaced(c.dimA), Spaced(c.dimB), c.name, tail);
  }

  lemma RenderedName(d: Direction, c: PortCapture, tail: string)
    ensures var s := Render(d, c) + tail;
            && NameEnd(d, c) < |s| && s[NameStart(d, c)..NameEnd(d, c)] == c.name && s[NameEnd(d, c)] == ','
            && |Render(d, c)| == NameEnd(d, c) + 1
  {
    RenderIs(d, c);
    NamePiece(Keyword(d), Spaced(c.storage), Spaced(c.dimA), Spaced(c.dimB), c.name, tail);
  }

  /** A part followed by its space, from `x` to `y`: the part up to `b`, then the space. */
  lemma SpacedAt(s: string, x: nat, b: nat, y: nat, p: string)
    requires p != "" && b == x + |p| && y == b + 1 && y <= |s| && s[x..y] == Spaced(p)
    ensures s[x..b] == p && s[b] == ' '
  {
    assert s[x..b] == s[x..y][..|p|];
    assert s[b] == s[x..y][|p|];
  }

  /** One space, then a part that does not start with one. */
  lemma OneSpace(s: string, x: nat)
    requires x < |s| && IsSpace(s[x]) && SkipSpaces(s, x + 1) == x + 1
    ensures SkipSpaces(s, x) == x + 1
  {
  }

  /** No dimension token starts with a character of an identifier. */
  lemma NoDimensionAtIdent(s: string, n: nat)
    requires n < |s| && IsIdentChar(s[n])
    ensures Dimension(s, n) == None
  {
  }

  /** An identifier closed by a comma is a name, and nothing else of the pattern starts there. */
  lemma NameAtoms(s: string, n: nat, e: nat, name: string)
    requires n < e < |s| && e == n + |name| && s[n..e] == name && s[e] == ',' && IsIdent(name)
    ensures NameAt(s, n, e)
  {
    assert forall m :: n <= m < e ==> s[m] == name[m - n];
    SpanIs(s, n, Name, e);
    SpanIs(s, n, Ident, e);
    SpanIs(s, n, Space, n);
    SpanIs(s, e, Space, e);
    NoDimensionAtIdent(s, n);
  }

  /** A dimension token from `a` to `b` followed by a space, with the next part at `next`. */
  lemma DimAtoms(s: string, a: nat, b: nat, dim: string, next: nat)
    requires a < b < |s| && b == a + |dim| && s[a..b] == dim && IsDimToken(dim) && s[b] == ' '
    requires next == b + 1 <= |s| && SkipSpaces(s, next) == next
    ensures DimAt(s, a, b, next) && SkipSpaces(s, a) == a && (s[a] == '[' || s[a] == '$')
  {
    DimensionUnique(s, a, b);
    assert s[a] == dim[0];
    SpanIs(s, a, Space, a);
    OneSpace(s, b);
  }

  lemma NamePlan(d: Direction, c: PortCapture, tail: string)
    requires IsIdent(c.name)
    ensures var s := Render(d, c) + tail;
            NameAt(s, NameStart(d, c), NameEnd(d, c)) && s[NameStart(d, c)..NameEnd(d, c)] == c.name
  {
    RenderedName(d, c, tail);
    NameAtoms(Render(d, c) + tail, NameStart(d, c), NameEnd(d, c), c.name);
  }

  lemma DimBPlan(d: Direction, c: PortCapture, tail: string)
    requires DimOrEmpty(c.dimB)
    requires var s := Render(d, c) + tail; NameStart(d, c) < |s| && SkipSpaces(s, NameStart(d, c)) == NameStart(d, c)
    ensures var s := Render(d, c) + tail; var a := DimBStart(d, c);
            DimAt(s, a, DimBEnd(d, c), NameStart(d, c)) && s[a..DimBEnd(d, c)] == c.dimB && SkipSpaces(s, a) == a
  {
    if c.dimB != "" {
      var s := Render(d, c) + tail;
      RenderedDimB(d, c, tail);
      SpacedAt(s, DimBStart(d, c), DimBEnd(d, c), NameStart(d, c), c.dimB);
      DimAtoms(s, DimBStart(d, c), DimBEnd(d, c), c.dimB, NameStart(d, c));
    }
  }

  lemma DimAPlan(d: Direction, c: PortCapture, tail: string)
    requires DimOrEmpty(c.dimA)
    requires var s := Render(d, c) + tail; DimBStart(d, c) < |s| && SkipSpaces(s, DimBStart(d, c)) == DimBStart(d, c)
    ensures var s := Render(d, c) + tail; var a := DimAStart(d, c);
            && DimAt(s, a, DimAEnd(d, c), DimBStart(d, c)) && s[a..DimAEnd(d, c)] == c.dimA && SkipSpaces(s, a) == a
            && (c.dimA != "" ==> s[a] == '[' || s[a] == '$')
  {
    if c.dimA != "" {
      var s := Render(d, c) + tail;
      RenderedDimA(d, c, tail);
      SpacedAt(s, DimAStart(d, c), DimAEnd(d, c), DimBStart(d, c), c.dimA);
      DimAtoms(s, DimAStart(d, c), DimAEnd(d, c), c.dimA, DimBStart(d, c));
    }
  }

  /** `wire` or `reg` followed by whitespace is the storage qualifier. */
  lemma QualifierFound(s: string, q: nat, r: nat)
    requires q < r < |s| && s[q..r] in {"wire", "reg"} && IsSpace(s[r])
    ensures Qualifier(s, q) == Some(r)
  {
    if s[q..r] == "wire" {
      assert s[q..q + 4] == "wire";
    } else {
      assert s[q] == s[q..r][0] == 'r';
      assert s[q..q + 3] == "reg";
    }
  }

  lemma StoragePlan(d: Direction, c: PortCapture, tail: string)
    requires c.storage in {"", "wire", "reg"}
    requires var s := Render(d, c) + tail; DimAStart(d, c) < |s| && SkipSpaces(s, DimAStart(d, c)) == DimAStart(d, c)
    ensures var s := Render(d, c) + tail; var q := StorageStart(d); var r := StorageEnd(d, c);
            && StartsWith(s, 0, Keyword(d)) && r <= |s| && SkipSpaces(s, |Keyword(d)|) == q
            && s[q..r] == c.storage
            && (q < r ==> Qualifier(s, q) == Some(r) && SkipSpaces(s, r) == DimAStart(d, c))
  {
    var s := Render(d, c) + tail;
    var q := StorageStart(d);
    var r := StorageEnd(d, c);
    RenderedKeyword(d, c, tail);
    if c.storage != "" {
      RenderedStorage(d, c, tail);
      SpacedAt(s, q, r, DimAStart(d, c), c.storage);
      QualifierFound(s, q, r);
      OneSpace(s, r);
      assert s[q] == c.storage[0];
      SpanIs(s, q, Space, q);
    }
    OneSpace(s, |Keyword(d)|);
  }

  /** Nothing of the port pattern can follow from a comma on. */
  lemma NoNameAtComma(s: string, e: nat, acc: PortCapture)
    requires e < |s| && s[e] == ','
    ensures MatchFrom(s, e, PortName, acc) == None
  {
    SpanIs(s, e, Space, e);
  }

  lemma NoSecondDimAtComma(s: string, e: nat, acc: PortCapture)
    requires e < |s| && s[e] == ','
    ensures MatchFrom(s, e, SecondDim, acc) == None
  {
    SpanIs(s, e, Space, e);
    NoNameAtComma(s, e, acc);
  }

  lemma NothingAtComma(s: string, e: nat, acc: PortCapture)
    requires e < |s| && s[e] == ','
    ensures MatchFrom(s, e, FirstDim, acc) == None
  {
    SpanIs(s, e, Space, e);
    NoSecondDimAtComma(s, e, acc);
  }

  /** Where `wire` or `reg` stands as a whole word, the qualifier ends right after it. */
  lemma QualifierEnds(s: string, n: nat, k: nat)
    requires n <= |s| && Qualifier(s, n) == Some(k)
    ensures k == n + 4 || k == n + 3
    ensures forall m :: n <= m < k ==> s[m] in "wirereg"
  {
    assert forall m :: n <= m < k ==> s[m] == s[n..k][m - n];
  }

  /**
   * A name that reads `wire` or `reg` and is closed by a comma is not a storage qualifier: the
   * engine gives the optional group up and reads the word as the name.
   */
  lemma QualifierIsName(s: string, n: nat, e: nat)
    requires NameAt(s, n, e)
    ensures NoQualifier(s, n)
  {
    var q := Qualifier(s, n);
    if q.Some? {
      var k := q.value;
      QualifierEnds(s, n, k);
      SpanFacts(s, n, Ident);
      assert k == e;
      NothingAtComma(s, e, Started(s[n..k]));
    }
  }

  /** A qualifier starts with `w` or `r`, so none stands where a dimension token starts. */
  lemma NoQualifierAtDim(s: string, q: nat)
    requires q < |s| && (s[q] == '[' || s[q] == '$')
    ensures Qualifier(s, q).None?
  {
  }

  lemma RenderLaidOut(d: Direction, c: PortCapture, tail: string)
    requires Canonical(c)
    ensures LaidOut(Render(d, c) + tail, Keyword(d), c, StorageStart(d), StorageEnd(d, c), DimAStart(d, c), DimAEnd(d, c),
                    DimBStart(d, c), DimBEnd(d, c), NameStart(d, c), NameEnd(d, c))
    ensures |Render(d, c)| == NameEnd(d, c) + 1
  {
    var s := Render(d, c) + tail;
    RenderedName(d, c, tail);
    NamePlan(d, c, tail);
    DimBPlan(d, c, tail);
    DimAPlan(d, c, tail);
    StoragePlan(d, c, tail);
    if c.storage == "" {
      if c.dimA == "" {
        QualifierIsName(s, NameStart(d, c), NameEnd(d, c));
      } else {
        NoQualifierAtDim(s, StorageStart(d));
      }
    }
  }

  /** A declaration written out in the usual form is recognised with exactly the parts it was written with. */
  lemma PortRoundTrip(d: Direction, c: PortCapture, tail: string)
    requires Canonical(c)
    ensures PortBody(Render(d, c) + tail, Keyword(d)) == Some((c, |Render(d, c)|))
  {
    RenderLaidOut(d, c, tail);
    BodyFrom(Render(d, c) + tail, Keyword(d), c, StorageStart(d), StorageEnd(d, c), DimAStart(d, c), DimAEnd(d, c),
             DimBStart(d, c), DimBEnd(d, c), NameStart(d, c), NameEnd(d, c), |Render(d, c)|);
  }

  /**
   * Where a declaration stands in a text, the port pattern finds there exactly what it finds at
   * the start of the declaration alone, unless the character before the keyword blocks it.
   */
  lemma PortInContext(prefix: string, s: string, d: Direction)
    ensures MatchPort(prefix + s, |prefix|, d)
         == if prefix != [] && BlocksKeyword(prefix[|prefix| - 1]) then None
            else Located(PortBody(s, Keyword(d)), |prefix|)
  {
    if prefix == [] {
      assert prefix + s == s;
      PortAtStart(s, d);
    } else {
      PrefixFacts(prefix, s);
      PortAt(prefix + s, |prefix|, d);
    }
  }

  // ---------------------------------------------------------------------------
  // Round trip of a module header
  // ---------------------------------------------------------------------------

  /** A run of `\s`, as `\s+` and `[\n\s]*` consume it. */
  predicate AllSpace(w: string) {
    forall m :: 0 <= m < |w| ==> IsSpace(w[m])
  }

  function PrefixPart(prefixed: bool): string {
    if prefixed then "$[PREFIX]" else ""
  }

  /** The optional `#` and the whitespace run after it. */
  function HashPart(hashed: bool, w2: string): string {
    if hashed then "#" + w2 else ""
  }

  /**
   * A header as written: `module`, the whitespace `w0`, the optional `$[PREFIX]`, the name, the
   * whitespace `w1`, then either `(` or `#`, the whitespace `w2` and `(`.
   */
  function RenderHeader(name: string, prefixed: bool, hashed: bool, w0: string, w1: string, w2: string): string {
    Concat(["module", w0, PrefixPart(prefixed), name, w1, HashPart(hashed, w2), "("])
  }

  /** The whitespace runs a header may be written with: at least one character after `module`. */
  predicate HeaderSpacing(w0: string, w1: string, w2: string) {
    w0 != [] && AllSpace(w0) && AllSpace(w1) && AllSpace(w2)
  }

  /** The name from `i`, then `w1`, then the optional `#` with `w2`, and the opening parenthesis. */
  predicate TailWritten(s: string, i: nat, name: string, hashed: bool, w1: string, w2: string) {
    var e := i + |name|;
    var q := e + |w1|;
    var h := q + |HashPart(hashed, w2)|;
    && h < |s|
    && s[i..e] == name && s[e..q] == w1 && s[q..h] == HashPart(hashed, w2) && s[h] == '('
  }

  /** A whitespace run written at `i` is exactly what `\s*` consumes there, when a non-space follows it. */
  lemma SpacesAt(s: string, i: nat, w: string)
    requires StartsWith(s, i, w) && AllSpace(w) && i + |w| < |s| && !IsSpace(s[i + |w|])
    ensures SkipSpaces(s, i) == i + |w|
  {
    assert forall m :: i <= m < i + |w| ==> s[m] == s[i..i + |w|][m - i];
    SpanIs(s, i, Space, i + |w|);
  }

  /** An identifier written at `i` is exactly what `[a-zA-Z\_0-9]+` consumes there, when a non-identifier character follows. */
  lemma IdentAt(s: string, i: nat, name: string)
    requires StartsWith(s, i, name) && IsIdent(name) && i + |name| < |s| && !IsIdentChar(s[i + |name|])
    ensures Span(s, i, Ident) == i + |name| && s[i] == name[0]
  {
    assert forall m :: i <= m < i + |name| ==> s[m] == s[i..i + |name|][m - i];
    SpanIs(s, i, Ident, i + |name|);
  }

  /** The first character of a non-empty piece written at `i`. */
  lemma FirstChar(s: string, i: nat, w: string)
    requires StartsWith(s, i, w) && w != []
    ensures s[i] == w[0]
  {
    assert s[i] == s[i..i + |w|][0];
  }

  /** `#`, then a whitespace run closed by `(`: the run is what the second `[\n\s]*` consumes. */
  lemma HashAt(s: string, q: nat, w2: string)
    requires StartsWith(s, q, "#" + w2) && AllSpace(w2) && q + 1 + |w2| < |s| && s[q + 1 + |w2|] == '('
    ensures s[q] == '#' && SkipSpaces(s, q + 1) == q + 1 + |w2|
  {
    FirstChar(s, q, "#" + w2);
    assert StartsWith(s, q + 1, w2) by {
      assert s[q + 1..q + 1 + |w2|] == s[q..q + 1 + |w2|][1..];
    }
    SpacesAt(s, q + 1, w2);
  }

  lemma TailAt(s: string, i: nat, name: string, hashed: bool, w1: string, w2: string)
    requires TailWritten(s, i, name, hashed, w1, w2) && IsIdent(name) && AllSpace(w1) && AllSpace(w2)
    ensures HeaderTail(s, i) == Some((name, i + |name| + |w1| + |HashPart(hashed, w2)| + 1))
    ensures s[i] == name[0]
  {
    var e := i + |name|;
    var q := e + |w1|;
    var h := q + |HashPart(hashed, w2)|;
    if hashed {
      HashAt(s, q, w2);
    }
    assert StartsWith(s, e, w1);
    SpacesAt(s, e, w1);
    if w1 != [] {
      FirstChar(s, e, w1);
    }
    assert StartsWith(s, i, name);
    IdentAt(s, i, name);
  }

  lemma HeaderPrefixed(s: string, p: nat, x: (string, nat))
    requires StartsWith(s, 0, "module") && 6 < p <= |s| && SkipSpaces(s, 6) == p
    requires StartsWith(s, p, "$[PREFIX]") && HeaderTail(s, p + 9) == Some(x)
    ensures HeaderBody(s) == Some(x)
  {
  }

  lemma HeaderUnprefixed(s: string, p: nat, x: (string, nat))
    requires StartsWith(s, 0, "module") && 6 < p <= |s| && SkipSpaces(s, 6) == p
    requires !StartsWith(s, p, "$[PREFIX]") && HeaderTail(s, p) == Some(x)
    ensures HeaderBody(s) == Some(x)
  {
  }

  lemma HeaderFrom(s: string, name: string, prefixed: bool, hashed: bool, w0: string, w1: string, w2: string)
    requires IsIdent(name) && HeaderSpacing(w0, w1, w2)
    requires StartsWith(s, 0, "module") && StartsWith(s, 6, w0)
    requires StartsWith(s, 6 + |w0|, PrefixPart(prefixed))
    requires TailWritten(s, 6 + |w0| + |PrefixPart(prefixed)|, name, hashed, w1, w2)
    ensures HeaderBody(s) == Some((name, 6 + |w0| + |PrefixPart(prefixed)| + |name| + |w1| + |HashPart(hashed, w2)| + 1))
  {
    var p := 6 + |w0|;
    var i := p + |PrefixPart(prefixed)|;
    var x := (name, i + |name| + |w1| + |HashPart(hashed, w2)| + 1);
    TailAt(s, i, name, hashed, w1, w2);
    if prefixed {
      HeaderFromPrefix(s, w0, x);
    } else {
      HeaderFromName(s, w0, x);
    }
  }

  /** `module`, its whitespace, `$[PREFIX]`, then a tail that matches. */
  lemma HeaderFromPrefix(s: string, w0: string, x: (string, nat))
    requires StartsWith(s, 0, "module") && StartsWith(s, 6, w0) && w0 != [] && AllSpace(w0)
    requires StartsWith(s, 6 + |w0|, "$[PREFIX]") && HeaderTail(s, 6 + |w0| + 9) == Some(x)
    ensures HeaderBody(s) == Some(x)
  {
    FirstChar(s, 6 + |w0|, "$[PREFIX]");
    SpacesAt(s, 6, w0);
    HeaderPrefixed(s, 6 + |w0|, x);
  }

  /** `module`, its whitespace, then a tail that matches and starts with an identifier character. */
  lemma HeaderFromName(s: string, w0: string, x: (string, nat))
    requires StartsWith(s, 0, "module") && StartsWith(s, 6, w0) && w0 != [] && AllSpace(w0)
    requires 6 + |w0| < |s| && IsIdentChar(s[6 + |w0|]) && HeaderTail(s, 6 + |w0|) == Some(x)
    ensures HeaderBody(s) == Some(x)
  {
    var p := 6 + |w0|;
    SpacesAt(s, 6, w0);
    assert !StartsWith(s, p, "$[PREFIX]") by {
      if StartsWith(s, p, "$[PREFIX]") {
        FirstChar(s, p, "$[PREFIX]");
      }
    }
    HeaderUnprefixed(s, p, x);
  }


  /** Eight pieces written one after another: where each of the first seven stands. */
  lemma EightPieces(m: string, w0: string, pre: string, name: string, w1: string, hp: string, o: string, tail: string)
    ensures var s := m + w0 + pre + name + w1 + hp + o + tail;
            && StartsWith(s, 0, m) && StartsWith(s, |m|, w0) && StartsWith(s, |m| + |w0|, pre)
            && StartsWith(s, |m| + |w0| + |pre|, name)
            && StartsWith(s, |m| + |w0| + |pre| + |name|, w1)
            && StartsWith(s, |m| + |w0| + |pre| + |name| + |w1|, hp)
            && StartsWith(s, |m| + |w0| + |pre| + |name| + |w1| + |hp|, o)
  {
  }

  /** A rendered header, piece by piece: where `module`, the spacing, the prefix and the tail stand. */
  lemma HeaderLaidOut(name: string, prefixed: bool, hashed: bool, w0: string, w1: string, w2: string, tail: string)
    ensures var s := RenderHeader(name, prefixed, hashed, w0, w1, w2) + tail;
            && StartsWith(s, 0, "module") && StartsWith(s, 6, w0)
            && StartsWith(s, 6 + |w0|, PrefixPart(prefixed))
            && TailWritten(s, 6 + |w0| + |PrefixPart(prefixed)|, name, hashed, w1, w2)
            && |RenderHeader(name, prefixed, hashed, w0, w1, w2)|
               == 6 + |w0| + |PrefixPart(prefixed)| + |name| + |w1| + |HashPart(hashed, w2)| + 1
  {
    var s := RenderHeader(name, prefixed, hashed, w0, w1, w2) + tail;
    var hp := HashPart(hashed, w2);
    var h := 6 + |w0| + |PrefixPart(prefixed)| + |name| + |w1| + |hp|;
    ConcatSeven("module", w0, PrefixPart(prefixed), name, w1, hp, "(");
    EightPieces("module", w0, PrefixPart(prefixed), name, w1, hp, "(", tail);
    assert s[h] == s[h..h + 1][0];
  }

  /** A header written out with any spacing the pattern allows is recognised with its name, and the match spans it exactly. */
  lemma HeaderRoundTrip(name: string, prefixed: bool, hashed: bool, w0: string, w1: string, w2: string, tail: string)
    requires IsIdent(name) && HeaderSpacing(w0, w1, w2)
    ensures var r := RenderHeader(name, prefixed, hashed, w0, w1, w2);
            HeaderBody(r + tail) == Some((name, |r|))
  {
    HeaderLaidOut(name, prefixed, hashed, w0, w1, w2, tail);
    HeaderFrom(RenderHeader(name, prefixed, hashed, w0, w1, w2) + tail, name, prefixed, hashed, w0, w1, w2);
  }

  /** A header laid out as the example in the module-name message (lines 54-55): `#` ends its line and `(` opens the next. */
  const SerialTxHeader: string := "module serialTX #\n    ("

  lemma SerialTxHeaderFound(tail: string)
    ensures HeaderBody(SerialTxHeader + tail) == Some(("serialTX", |SerialTxHeader|))
  {
    var w2 := "\n    ";
    ConcatSeven("module", " ", "", "serialTX", " ", "#" + w2, "(");
    assert RenderHeader("serialTX", false, true, " ", " ", w2) == SerialTxHeader;
    HeaderRoundTrip("serialTX", false, true, " ", " ", w2, tail);
  }

  /**
   * Where a module header stands in a text, the header pattern finds there exactly what it
   * finds at the start of the header alone, unless the character before `module` blocks it.
   */
  lemma HeaderInContext(prefix: string, s: string)
    ensures MatchHeader(prefix + s, |prefix|)
         == if prefix != [] && BlocksKeyword(prefix[|prefix| - 1]) then None
            else Located(HeaderBody(s), |prefix|)
  {
    if prefix == [] {
      assert prefix + s == s;
      HeaderAtStart(s);
    } else {
      PrefixFacts(prefix, s);
      HeaderAt(prefix + s, |prefix|);
    }
  }

  // ---------------------------------------------------------------------------
  // A declaration or a header inside a text: found with exactly its parts,
  // unless the character before its keyword is a space, `/`, a letter or `_`.
  // ---------------------------------------------------------------------------

  /** The port pattern at `pos` is the declaration body from `pos` on, once the lookbehind lets it through. */
  lemma PortFoundHere(text: string, pos: nat, d: Direction, c: PortCapture, len: nat)
    requires pos <= |text| && LookbehindOk(text, pos) && PortBody(text[pos..], Keyword(d)) == Some((c, len))
    ensures MatchPort(text, pos, d) == Some(Hit(pos, pos + len, c))
  {
    var b := PortBody(text[pos..], Keyword(d));
    assert MatchPort(text, pos, d) == Located(b, pos);
    LocatedHit(b, c, len, pos);
  }

  lemma LocatedHit<T>(b: Option<(T, nat)>, v: T, n: nat, pos: nat)
    requires b == Some((v, n))
    ensures Located(b, pos) == Some(Hit(pos, pos + n, v))
  {
  }

  lemma PortBodyAfter(prefix: string, s: string, d: Direction)
    ensures PortBody((prefix + s)[|prefix|..], Keyword(d)) == PortBody(s, Keyword(d))
  {
    assert (prefix + s)[|prefix|..] == s;
  }

  /**
   * A declaration written out in the usual form, at the start of the text or after a character
   * that does not block its keyword (a newline, a tab, `(`, `,` ...), is matched there with exactly
   * its parts and spans exactly its own text; after a blocking character it is not matched.
   */
  lemma PortFoundAt(prefix: string, d: Direction, c: PortCapture, tail: string, s: string, pos: nat, len: nat)
    requires Canonical(c) && s == Render(d, c) + tail && pos == |prefix| && len == |Render(d, c)|
    ensures MatchPort(prefix + s, pos, d)
         == if prefix != [] && BlocksKeyword(prefix[|prefix| - 1]) then None
            else Some(Hit(pos, pos + len, c))
  {
    if prefix != [] && BlocksKeyword(prefix[|prefix| - 1]) {
      PortInContext(prefix, s, d);
    } else {
      PortRoundTrip(d, c, tail);
      PortBodyAfter(prefix, s, d);
      if prefix != [] {
        PrefixFacts(prefix, s);
      }
      PortFoundHere(prefix + s, pos, d, c, len);
    }
  }

  /**
   * A module header written with any spacing the pattern allows, at the start of the text or after
   * a character that does not block `module`, is matched there with its name and spans exactly its
   * own text; after a blocking character it is not matched.
   */
  lemma HeaderFoundAt(prefix: string, name: string, prefixed: bool, hashed: bool, w0: string, w1: string, w2: string,
                      tail: string, s: string, pos: nat, len: nat)
    requires IsIdent(name) && HeaderSpacing(w0, w1, w2)
    requires s == RenderHeader(name, prefixed, hashed, w0, w1, w2) + tail
    requires pos == |prefix| && len == |RenderHeader(name, prefixed, hashed, w0, w1, w2)|
    ensures MatchHeader(prefix + s, pos)
         == if prefix != [] && BlocksKeyword(prefix[|prefix| - 1]) then None
            else Some(Hit(pos, pos + len, name))
  {
    if prefix != [] && BlocksKeyword(prefix[|prefix| - 1]) {
      HeaderInContext(prefix, s);
    } else {
      HeaderRoundTrip(name, prefixed, hashed, w0, w1, w2, tail);
      assert (prefix + s)[|prefix|..] == s;
      if prefix != [] {
        PrefixFacts(prefix, s);
      }
      HeaderFoundHere(prefix + s, pos, name, len);
    }
  }

  /** The header pattern at `pos` is the header body from `pos` on, once the lookbehind lets it through. */
  lemma HeaderFoundHere(text: string, pos: nat, name: string, len: nat)
    requires pos <= |text| && LookbehindOk(text, pos) && HeaderBody(text[pos..]) == Some((name, len))
    ensures MatchHeader(text, pos) == Some(Hit(pos, pos + len, name))
  {
    var b := HeaderBody(text[pos..]);
    assert MatchHeader(text, pos) == Located(b, pos);
    LocatedHit(b, name, len, pos);
  }

}
