/**
 * Character classes used by the declaration patterns of get_module_io.py,
 * and the greedy run of one class that every `[...]+` and `\s*` performs.
 */
module Chars {

  /** Python's `\s` on a str pattern: exactly the characters for which str.isspace() holds. */
  predicate IsSpace(c: char) {
    c == ' ' || '\t' <= c <= '\r' || '\U{1C}' <= c <= '\U{1F}'
    || c == '\U{85}' || c == '\U{A0}' || c == '\U{1680}'
    || '\U{2000}' <= c <= '\U{200A}' || c == '\U{2028}' || c == '\U{2029}'
    || c == '\U{202F}' || c == '\U{205F}' || c == '\U{3000}'
  }

  /**
   * Space, tab, newline and carriage return are whitespace, and no whitespace character can start
   * a name, a dimension, `#`, `(` or `,`: a `\s*` before one of those is always taken whole.
   */
  lemma SpaceClass(c: char)
    ensures c == ' ' || c == '\t' || c == '\n' || c == '\r' ==> IsSpace(c)
    ensures IsSpace(c) ==> !IsNameChar(c) && c != '[' && c != '#' && c != '(' && c != ','
  {
  }

  predicate IsAsciiLetter(c: char) {
    'a' <= c <= 'z' || 'A' <= c <= 'Z'
  }

  predicate IsDigit(c: char) {
    '0' <= c <= '9'
  }

  /** `[a-zA-Z\_0-9]`: the module identifier. */
  predicate IsIdentChar(c: char) {
    IsAsciiLetter(c) || IsDigit(c) || c == '_'
  }

  /** `\w` as seen by `\b` after `wire`/`reg`: the ASCII word characters, the same set as an identifier's. */
  predicate IsWordChar(c: char) {
    IsIdentChar(c)
  }

  /** `[a-zA-Z\_0-9\$\{\}]`: a port name. */
  predicate IsNameChar(c: char) {
    IsIdentChar(c) || c == '$' || c == '{' || c == '}'
  }

  /** The inside of a bracketed dimension: backquote, ASCII letters and digits, `_ - + : * /` and space. */
  predicate IsBracketChar(c: char) {
    || IsAsciiLetter(c) || IsDigit(c)
    || c == '`' || c == '_' || c == '-' || c == '+' || c == ':' || c == '*' || c == '/' || c == ' '
  }

  /** `[a-zA-Z\_]`: the inside of a `$${NAME}` or `$[NAME]` placeholder. */
  predicate IsPlaceholderChar(c: char) {
    IsAsciiLetter(c) || c == '_'
  }

  /** `(?: |/|[a-zA-Z\_])`: a character that, just before a keyword, prevents the keyword's match. */
  predicate BlocksKeyword(c: char) {
    c == ' ' || c == '/' || IsAsciiLetter(c) || c == '_'
  }

  datatype CharClass = Space | Ident | Name | Bracket | Placeholder

  predicate InClass(k: CharClass, c: char) {
    match k
    case Space => IsSpace(c)
    case Ident => IsIdentChar(c)
    case Name => IsNameChar(c)
    case Bracket => IsBracketChar(c)
    case Placeholder => IsPlaceholderChar(c)
  }

  /** The end of the longest run of class `k` starting at `i`. */
  function Span(s: string, i: nat, k: CharClass): (j: nat)
    requires i <= |s|
    ensures i <= j <= |s|
    decreases |s| - i
  {
    if i < |s| && InClass(k, s[i]) then Span(s, i + 1, k) else i
  }

  /** `\s*`, always taken maximally. */
  function SkipSpaces(s: string, i: nat): (j: nat)
    requires i <= |s|
    ensures i <= j <= |s|
  {
    Span(s, i, Space)
  }

  /** The run holds only characters of its class and stops at one outside it (or at the end). */
  lemma SpanFacts(s: string, i: nat, k: CharClass)
    requires i <= |s|
    ensures forall m :: i <= m < Span(s, i, k) ==> InClass(k, s[m])
    ensures Span(s, i, k) == |s| || !InClass(k, s[Span(s, i, k)])
    decreases |s| - i
  {
    if i < |s| && InClass(k, s[i]) {
      SpanFacts(s, i + 1, k);
    }
  }

  /** A run is determined by its two ends: `Span` is the only end that fits. */
  lemma SpanIs(s: string, i: nat, k: CharClass, j: nat)
    requires i <= j <= |s|
    requires forall m :: i <= m < j ==> InClass(k, s[m])
    requires j == |s| || !InClass(k, s[j])
    ensures Span(s, i, k) == j
    decreases j - i
  {
    if i < j {
      SpanIs(s, i + 1, k, j);
    }
  }
}
