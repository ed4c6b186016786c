/**
 * The three text patterns of get_module_io.py (lines 122, 124 and 125), each written as a
 * direct matcher over the text. A matcher tries the alternatives of its pattern in the order
 * Python's backtracking engine does (greedy and "present" first, then the fallbacks) and
 * returns the first that succeeds, so it yields the same match and the same groups.
 *
 * Every `\s*` and `\s+` is taken maximally: no atom that follows one can start with
 * whitespace, so a shorter choice never succeeds where the maximal one fails (`Chars.SpaceClass`).
 */
module Patterns {
  import opened Wrappers
  import opened Chars

  datatype Direction = Input | Output

  function Keyword(d: Direction): string {
    match d
    case Input => "input"
    case Output => "output"
  }

  /** The groups `re.findall` returns for one port match, without the keyword group. */
  datatype PortCapture = PortCapture(storage: string, dimA: string, dimB: string, name: string)

  /** One match of a pattern: where it starts and ends in the text, and what it captured. */
  datatype Hit<T> = Hit(start: nat, end: nat, value: T)

  /** A match found at the start of `text[pos..]`, placed at `pos` of the whole text. */
  function Located<T>(b: Option<(T, nat)>, pos: nat): Option<Hit<T>> {
    if b.Some? then Some(Hit(pos, pos + b.value.1, b.value.0)) else None
  }

  predicate StartsWith(s: string, i: nat, w: string) {
    i + |w| <= |s| && s[i..i + |w|] == w
  }

  /** The one-character negative lookbehind in front of every keyword. */
  predicate LookbehindOk(text: string, pos: nat)
    requires pos <= |text|
  {
    pos == 0 || !BlocksKeyword(text[pos - 1])
  }

  // ---------------------------------------------------------------------------
  // Dimension tokens: `\[[...]+\]`, `\$\$\{[a-zA-Z\_]+\}` or `\$\[[a-zA-Z\_]+\]`
  // ---------------------------------------------------------------------------

  predicate IsBracketDim(t: string) {
    |t| >= 3 && t[0] == '[' && t[|t| - 1] == ']'
    && forall m :: 0 < m < |t| - 1 ==> IsBracketChar(t[m])
  }

  predicate IsBracePlaceholder(t: string) {
    |t| >= 5 && t[0] == '$' && t[1] == '$' && t[2] == '{' && t[|t| - 1] == '}'
    && forall m :: 3 <= m < |t| - 1 ==> IsPlaceholderChar(t[m])
  }

  predicate IsBracketPlaceholder(t: string) {
    |t| >= 4 && t[0] == '$' && t[1] == '[' && t[|t| - 1] == ']'
    && forall m :: 2 <= m < |t| - 1 ==> IsPlaceholderChar(t[m])
  }

  /** One whole dimension token: a bracket expression or a placeholder. */
  predicate IsDimToken(t: string) {
    IsBracketDim(t) || IsBracePlaceholder(t) || IsBracketPlaceholder(t)
  }

  predicate DimOrEmpty(t: string) {
    t == "" || IsDimToken(t)
  }

  /** A port name: `[a-zA-Z\_0-9\$\{\}]+`. */
  predicate IsName(n: string) {
    |n| > 0 && forall m :: 0 <= m < |n| ==> IsNameChar(n[m])
  }

  /** What every port match captures, whatever the text was. */
  predicate WellFormed(c: PortCapture) {
    c.storage in {"", "wire", "reg"} && DimOrEmpty(c.dimA) && DimOrEmpty(c.dimB) && IsName(c.name)
  }

  /** A run of class `k` from `i`, at least one long, closed by `close`; the end after `close`. */
  function Closed(s: string, i: nat, k: CharClass, close: char): Option<nat>
    requires i <= |s|
  {
    var e := Span(s, i, k);
    if i < e < |s| && s[e] == close then Some(e + 1) else None
  }

  /** The dimension token at `i`, if one starts there; its end. */
  function Dimension(s: string, i: nat): (e: Option<nat>)
    requires i <= |s|
    ensures e.Some? ==> i < e.value <= |s| && IsDimToken(s[i..e.value])
  {
    if i < |s| && s[i] == '[' then
      BracketDimFound(s, i);
      Closed(s, i + 1, Bracket, ']')
    else if i + 2 < |s| && s[i] == '$' && s[i + 1] == '$' && s[i + 2] == '{' then
      BracePlaceholderFound(s, i);
      Closed(s, i + 3, Placeholder, '}')
    else if i + 1 < |s| && s[i] == '$' && s[i + 1] == '[' then
      BracketPlaceholderFound(s, i);
      Closed(s, i + 2, Placeholder, ']')
    else
      None
  }

  /** Tokens never nest, so a token that starts at `i` is the one `Dimension` finds there. */
  lemma DimensionUnique(s: string, i: nat, j: nat)
    requires i < j <= |s| && IsDimToken(s[i..j])
    ensures Dimension(s, i) == Some(j)
  {
    if i < |s| && s[i] == '[' {
      BracketDimFound(s, i);
    } else if i + 2 < |s| && s[i] == '$' && s[i + 1] == '$' && s[i + 2] == '{' {
      BracePlaceholderFound(s, i);
    } else if i + 1 < |s| && s[i] == '$' && s[i + 1] == '[' {
      BracketPlaceholderFound(s, i);
    } else {
      NoDimension(s, i);
    }
  }

  lemma BracketDimFound(s: string, i: nat)
    requires i < |s| && s[i] == '['
    ensures var e := Closed(s, i + 1, Bracket, ']');
            && (e.Some? ==> i < e.value <= |s| && IsDimToken(s[i..e.value]))
            && forall j :: i < j <= |s| && IsDimToken(s[i..j]) ==> e == Some(j)
  {
    var e := Span(s, i + 1, Bracket);
    SpanFacts(s, i + 1, Bracket);
    if i + 1 < e < |s| && s[e] == ']' {
      var t := s[i..e + 1];
      assert forall m :: 0 < m < |t| - 1 ==> t[m] == s[i + m] && IsBracketChar(t[m]);
      assert IsBracketDim(t);
    }
    forall j | i < j <= |s| && IsDimToken(s[i..j])
      ensures Closed(s, i + 1, Bracket, ']') == Some(j)
    {
      var t := s[i..j];
      assert t[0] == '[';
      assert IsBracketDim(t);
      assert forall m :: i + 1 <= m < j - 1 ==> s[m] == t[m - i] && InClass(Bracket, s[m]);
      assert s[j - 1] == t[|t| - 1];
      SpanIs(s, i + 1, Bracket, j - 1);
    }
  }

  lemma BracePlaceholderFound(s: string, i: nat)
    requires i + 2 < |s| && s[i] == '$' && s[i + 1] == '$' && s[i + 2] == '{'
    ensures var e := Closed(s, i + 3, Placeholder, '}');
            && (e.Some? ==> i < e.value <= |s| && IsDimToken(s[i..e.value]))
            && forall j :: i < j <= |s| && IsDimToken(s[i..j]) ==> e == Some(j)
  {
    var e := Span(s, i + 3, Placeholder);
    SpanFacts(s, i + 3, Placeholder);
    if i + 3 < e < |s| && s[e] == '}' {
      var t := s[i..e + 1];
      assert forall m :: 3 <= m < |t| - 1 ==> t[m] == s[i + m] && IsPlaceholderChar(t[m]);
      assert IsBracePlaceholder(t);
    }
    forall j | i < j <= |s| && IsDimToken(s[i..j])
      ensures Closed(s, i + 3, Placeholder, '}') == Some(j)
    {
      var t := s[i..j];
      assert t[0] == '$' && t[1] == '$';
      assert IsBracePlaceholder(t);
      assert forall m :: i + 3 <= m < j - 1 ==> s[m] == t[m - i] && InClass(Placeholder, s[m]);
      assert s[j - 1] == t[|t| - 1];
      SpanIs(s, i + 3, Placeholder, j - 1);
    }
  }

  lemma BracketPlaceholderFound(s: string, i: nat)
    requires i + 1 < |s| && s[i] == '$' && s[i + 1] == '['
    ensures var e := Closed(s, i + 2, Placeholder, ']');
            && (e.Some? ==> i < e.value <= |s| && IsDimToken(s[i..e.value]))
            && forall j :: i < j <= |s| && IsDimToken(s[i..j]) ==> e == Some(j)
  {
    var e := Span(s, i + 2, Placeholder);
    SpanFacts(s, i + 2, Placeholder);
    if i + 2 < e < |s| && s[e] == ']' {
      var t := s[i..e + 1];
      assert forall m :: 2 <= m < |t| - 1 ==> t[m] == s[i + m] && IsPlaceholderChar(t[m]);
      assert IsBracketPlaceholder(t);
    }
    forall j | i < j <= |s| && IsDimToken(s[i..j])
      ensures Closed(s, i + 2, Placeholder, ']') == Some(j)
    {
      var t := s[i..j];
      assert t[0] == '$' && t[1] == '[';
      assert IsBracketPlaceholder(t);
      assert forall m :: i + 2 <= m < j - 1 ==> s[m] == t[m - i] && InClass(Placeholder, s[m]);
      assert s[j - 1] == t[|t| - 1];
      SpanIs(s, i + 2, Placeholder, j - 1);
    }
  }

  lemma NoDimension(s: string, i: nat)
    requires i <= |s|
    requires !(i < |s| && s[i] == '[')
    requires !(i + 2 < |s| && s[i] == '$' && s[i + 1] == '$' && s[i + 2] == '{')
    requires !(i + 1 < |s| && s[i] == '$' && s[i + 1] == '[')
    ensures forall j :: i < j <= |s| ==> !IsDimToken(s[i..j])
  {
    forall j | i < j <= |s|
      ensures !IsDimToken(s[i..j])
    {
      var t := s[i..j];
      if |t| >= 4 {
        assert t[0] == s[i] && t[1] == s[i + 1] && t[2] == s[i + 2];
      } else if |t| >= 2 {
        assert t[0] == s[i] && t[1] == s[i + 1];
      }
    }
  }

  // ---------------------------------------------------------------------------
  // The port pattern (lines 124-125):
  //   keyword \s+ (wire\b|reg\b)? \s* (DIM)? \s* (DIM)? \s* ([a-zA-Z_0-9${}]+) \s* ,?
  // ---------------------------------------------------------------------------

  predicate AtWordEnd(s: string, i: nat)
    requires i <= |s|
  {
    i == |s| || !IsWordChar(s[i])
  }

  /** `(wire\b|reg\b)`: the storage qualifier at `i`, if one stands there; its end. */
  function Qualifier(s: string, i: nat): (e: Option<nat>)
    requires i <= |s|
    ensures e.Some? ==> i < e.value <= |s| && s[i..e.value] in {"wire", "reg"} && AtWordEnd(s, e.value)
    ensures e.None? ==> (!(StartsWith(s, i, "wire") && AtWordEnd(s, i + 4))
                         && !(StartsWith(s, i, "reg") && AtWordEnd(s, i + 3)))
  {
    if StartsWith(s, i, "wire") && AtWordEnd(s, i + 4) then Some(i + 4)
    else if StartsWith(s, i, "reg") && AtWordEnd(s, i + 3) then Some(i + 3)
    else None
  }

  /** The groups of the port pattern after the storage qualifier, in the order they are matched. */
  datatype Group = FirstDim | SecondDim | PortName

  /** How many groups follow `g`. */
  function Later(g: Group): nat {
    match g
    case FirstDim => 2
    case SecondDim => 1
    case PortName => 0
  }

  /**
   * The port pattern from group `g` on, tried at `i`, with `acc` holding the groups captured
   * before `g`: the completed capture and the end of the match. The name is
   * `\s*([a-zA-Z\_0-9\$\{\}]+)\s*,?`; each dimension is `\s*(DIM)?`, tried present first and
   * kept exactly when the rest of the pattern matches after it, as the engine backtracks.
   */
  function MatchFrom(s: string, i: nat, g: Group, acc: PortCapture): (r: Option<(PortCapture, nat)>)
    requires i <= |s|
    ensures r.Some? ==> && i < r.value.1 <= |s|
                        && r.value.0.storage == acc.storage
                        && (g != FirstDim ==> r.value.0.dimA == acc.dimA)
                        && (g == PortName ==> r.value.0.dimB == acc.dimB)
                        && (r.value.0.dimA == acc.dimA || IsDimToken(r.value.0.dimA))
                        && (r.value.0.dimB == acc.dimB || IsDimToken(r.value.0.dimB))
                        && IsName(r.value.0.name)
    decreases Later(g)
  {
    var p := SkipSpaces(s, i);
    match g
    case PortName =>
      var e := Span(s, p, Name);
      if e == p then None
      else
        var t := SkipSpaces(s, e);
        SpanFacts(s, p, Name);
        NameRun(s, p, e);
        Some((acc.(name := s[p..e]), if t < |s| && s[t] == ',' then t + 1 else t))
    case SecondDim =>
      var d := Dimension(s, p);
      var kept := if d.Some? then MatchFrom(s, d.value, PortName, acc.(dimB := s[p..d.value])) else None;
      if kept.Some? then kept else MatchFrom(s, p, PortName, acc)
    case FirstDim =>
      var d := Dimension(s, p);
      var kept := if d.Some? then MatchFrom(s, d.value, SecondDim, acc.(dimA := s[p..d.value])) else None;
      if kept.Some? then kept else MatchFrom(s, p, SecondDim, acc)
  }

  lemma NameRun(s: string, p: nat, e: nat)
    requires p < e <= |s| && forall m :: p <= m < e ==> InClass(Name, s[m])
    ensures IsName(s[p..e])
  {
    assert forall m :: 0 <= m < e - p ==> s[p..e][m] == s[p + m];
  }

  /** No group captured yet but the storage qualifier. */
  function Started(storage: string): PortCapture {
    PortCapture(storage, "", "", "")
  }

  /** The port pattern anchored at the start of `s`, the lookbehind aside: the groups and the length matched. */
  function PortBody(s: string, kw: string): (r: Option<(PortCapture, nat)>)
    ensures r.Some? ==> && StartsWith(s, 0, kw)
                        && |kw| < r.value.1 <= |s|
                        && WellFormed(r.value.0)
    ensures r.Some? && r.value.0.storage != "" ==> StartsWith(s, SkipSpaces(s, |kw|), r.value.0.storage)
  {
    if !StartsWith(s, 0, kw) then None
    else
      var p := SkipSpaces(s, |kw|);
      if p == |kw| then None
      else
        var q := Qualifier(s, p);
        var kept := if q.Some? then MatchFrom(s, q.value, FirstDim, Started(s[p..q.value])) else None;
        if kept.Some? then kept else MatchFrom(s, p, FirstDim, Started(""))
  }

  /** The port pattern of direction `d` tried at `pos` of `text`, as `re` tries it at each position. */
  function MatchPort(text: string, pos: nat, d: Direction): (r: Option<Hit<PortCapture>>)
    ensures r.Some? ==> && r.value.start == pos < r.value.end <= |text|
                        && LookbehindOk(text, pos)
                        && StartsWith(text, pos, Keyword(d))
                        && WellFormed(r.value.value)
  {
    if pos <= |text| && LookbehindOk(text, pos) then
      var b := PortBody(text[pos..], Keyword(d));
      assert b.Some? ==> text[pos..][..|Keyword(d)|] == text[pos..pos + |Keyword(d)|];
      Located(b, pos)
    else None
  }

  // ---------------------------------------------------------------------------
  // The module-header pattern (line 122):
  //   module \s+ (?:\$\[PREFIX\])? ([a-zA-Z\_0-9]+) [\n\s]* #? [\n\s]* \(
  // ---------------------------------------------------------------------------

  /** A module identifier: `[a-zA-Z\_0-9]+`. */
  predicate IsIdent(n: string) {
    |n| > 0 && forall m :: 0 <= m < |n| ==> IsIdentChar(n[m])
  }

  lemma IdentRun(s: string, p: nat, e: nat)
    requires p < e <= |s| && forall m :: p <= m < e ==> InClass(Ident, s[m])
    ensures IsIdent(s[p..e])
  {
    assert forall m :: 0 <= m < e - p ==> s[p..e][m] == s[p + m];
  }

  /** The identifier at `i` (greedy), then `#?` tried present first, then the opening parenthesis. */
  function HeaderTail(s: string, i: nat): (r: Option<(string, nat)>)
    requires i <= |s|
    ensures r.Some? ==> i < r.value.1 <= |s| && s[r.value.1 - 1] == '(' && IsIdent(r.value.0)
  {
    var e := Span(s, i, Ident);
    if e == i then None
    else
      SpanFacts(s, i, Ident);
      IdentRun(s, i, e);
      var q := SkipSpaces(s, e);
      var hashed :=
        if q < |s| && s[q] == '#' then
          var q2 := SkipSpaces(s, q + 1);
          if q2 < |s| && s[q2] == '(' then Some(q2 + 1) else None
        else None;
      if hashed.Some? then Some((s[i..e], hashed.value))
      else if q < |s| && s[q] == '(' then Some((s[i..e], q + 1))
      else None
  }

  /** The header pattern anchored at the start of `s`, the lookbehind aside: the name and the length matched. */
  function HeaderBody(s: string): (r: Option<(string, nat)>)
    ensures r.Some? ==> && StartsWith(s, 0, "module")
                        && 6 < r.value.1 <= |s|
                        && s[r.value.1 - 1] == '('
                        && IsIdent(r.value.0)
  {
    if !StartsWith(s, 0, "module") then None
    else
      var p := SkipSpaces(s, 6);
      if p == 6 then None
      else
        var prefixed := if StartsWith(s, p, "$[PREFIX]") then HeaderTail(s, p + 9) else None;
        if prefixed.Some? then prefixed else HeaderTail(s, p)
  }

  /** The module-header pattern tried at `pos` of `text`. */
  function MatchHeader(text: string, pos: nat): (r: Option<Hit<string>>)
    ensures r.Some? ==> && r.value.start == pos < r.value.end <= |text|
                        && LookbehindOk(text, pos)
                        && StartsWith(text, pos, "module")
                        && text[r.value.end - 1] == '('
                        && IsIdent(r.value.value)
  {
    if pos <= |text| && LookbehindOk(text, pos) then
      var b := HeaderBody(text[pos..]);
      assert b.Some? ==> text[pos..][..6] == text[pos..pos + 6];
      Located(b, pos)
    else None
  }
}
