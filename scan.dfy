/**
 * `re.findall` over the whole text (get_module_io.py lines 128, 137 and 145): the pattern is
 * tried at each position from left to right; a match is reported and the search resumes where
 * it ended, otherwise the search moves one character on.
 */
module Scan {
  import opened Wrappers
  import opened Patterns

  /** What `FindAll` needs of a recogniser: a match at `p` starts at `p` and ends after it, inside the text. */
  ghost predicate Advances<T>(recognise: (string, nat) -> Option<Hit<T>>, text: string) {
    forall p: nat :: p <= |text| && recognise(text, p).Some? ==>
      recognise(text, p).value.start == p && p < recognise(text, p).value.end <= |text|
  }

  /** Every match found scanning from `pos`, in source order. */
  function FindAll<T>(recognise: (string, nat) -> Option<Hit<T>>, text: string, pos: nat): (hits: seq<Hit<T>>)
    requires pos <= |text| && Advances(recognise, text)
    ensures forall i :: 0 <= i < |hits| ==>
      && pos <= hits[i].start < hits[i].end <= |text|
      && recognise(text, hits[i].start) == Some(hits[i])
    ensures forall i :: 0 < i < |hits| ==> hits[i - 1].end <= hits[i].start
    decreases |text| - pos
  {
    if pos == |text| then []
    else
      var r := recognise(text, pos);
      if r.Some? then [r.value] + FindAll(recognise, text, r.value.end)
      else FindAll(recognise, text, pos + 1)
  }

  /** The values `re.findall` returns: one capture per match. */
  function Values<T>(hits: seq<Hit<T>>): (vs: seq<T>)
    ensures |vs| == |hits| && forall i :: 0 <= i < |hits| ==> vs[i] == hits[i].value
  {
    if hits == [] then [] else [hits[0].value] + Values(hits[1..])
  }

  /** Position `p` lies inside one of the matches. */
  ghost predicate Covered<T>(hits: seq<Hit<T>>, p: nat) {
    exists i :: 0 <= i < |hits| && hits[i].start <= p < hits[i].end
  }

  /** Nothing is dropped: every position where the pattern matches lies inside a reported match. */
  lemma {:induction false} FindAllComplete<T>(recognise: (string, nat) -> Option<Hit<T>>, text: string, pos: nat, p: nat)
    requires pos <= p < |text| && Advances(recognise, text)
    requires recognise(text, p).Some?
    ensures Covered(FindAll(recognise, text, pos), p)
    decreases |text| - pos
  {
    var hits := FindAll(recognise, text, pos);
    var r := recognise(text, pos);
    if r.Some? {
      if p < r.value.end {
        assert hits[0] == r.value && r.value.start == pos;
        assert hits[0].start <= p < hits[0].end;
      } else {
        FindAllComplete(recognise, text, r.value.end, p);
        var rest := FindAll(recognise, text, r.value.end);
        var i :| 0 <= i < |rest| && rest[i].start <= p < rest[i].end;
        assert hits[i + 1] == rest[i];
      }
    } else {
      FindAllComplete(recognise, text, pos + 1, p);
      assert hits == FindAll(recognise, text, pos + 1);
    }
  }

  /** Where the pattern matches nowhere, nothing is found. */
  lemma {:induction false} FindAllNone<T>(recognise: (string, nat) -> Option<Hit<T>>, text: string, pos: nat)
    requires pos <= |text| && Advances(recognise, text)
    requires forall p: nat :: pos <= p < |text| ==> recognise(text, p).None?
    ensures FindAll(recognise, text, pos) == []
    decreases |text| - pos
  {
    if pos < |text| {
      FindAllNone(recognise, text, pos + 1);
    }
  }

  lemma HeaderAdvances(text: string)
    ensures Advances(MatchHeader, text)
  {
    forall p: nat | p <= |text| && MatchHeader(text, p).Some?
      ensures MatchHeader(text, p).value.start == p && p < MatchHeader(text, p).value.end <= |text|
    {
    }
  }

  lemma PortAdvances(text: string, d: Direction)
    ensures Advances((t, p) => MatchPort(t, p, d), text)
  {
    forall p: nat | p <= |text| && MatchPort(text, p, d).Some?
      ensures MatchPort(text, p, d).value.start == p && p < MatchPort(text, p, d).value.end <= |text|
    {
    }
  }

  /** `re.findall(moduleNamePattern, moduleContents)` (line 128). */
  function ModuleNames(text: string): (names: seq<string>)
    ensures forall i :: 0 <= i < |names| ==> IsIdent(names[i])
  {
    HeaderAdvances(text);
    Values(FindAll(MatchHeader, text, 0))
  }

  /** A text without the keyword's first letter holds no declaration of that direction. */
  lemma NoKeywordNoPorts(text: string, d: Direction)
    requires forall p :: 0 <= p < |text| ==> text[p] != Keyword(d)[0]
    ensures PortMatches(text, d) == []
  {
    PortAdvances(text, d);
    forall p: nat | p < |text|
      ensures MatchPort(text, p, d).None?
    {
      if MatchPort(text, p, d).Some? {
        assert text[p..p + |Keyword(d)|][0] == Keyword(d)[0];
      }
    }
    FindAllNone((t, p) => MatchPort(t, p, d), text, 0);
  }

  /** `re.findall(moduleInputsPattern, ...)` and `re.findall(moduleOutputsPattern, ...)` (lines 137 and 145). */
  function PortMatches(text: string, d: Direction): (captures: seq<PortCapture>)
    ensures forall i :: 0 <= i < |captures| ==> WellFormed(captures[i])
  {
    PortAdvances(text, d);
    Values(FindAll((t, p) => MatchPort(t, p, d), text, 0))
  }
}
