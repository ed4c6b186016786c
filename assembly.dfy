/**
 * The two port dictionaries of get_module_io.py (lines 154-169): every capture of a direction
 * becomes an entry `name -> {signalType, signalDimension}`, inserted in the order the captures
 * were found; a name declared again keeps its place and takes the later declaration's fields.
 */
module Assembly {
  import opened Wrappers
  import opened Patterns

  /** The value stored under a signal name: its storage qualifier and its dimension text. */
  datatype Port = Port(storage: string, dimension: string)

  /** A Python dict as it iterates: its (key, value) pairs in insertion order. */
  type Dict = seq<(string, Port)>

  function Keys(d: Dict): seq<string> {
    seq(|d|, i requires 0 <= i < |d| => d[i].0)
  }

  /** A dict never holds a key twice. */
  predicate DistinctKeys(d: Dict) {
    forall i, j :: 0 <= i < j < |d| ==> d[i].0 != d[j].0
  }

  /** Where key `k` stands in `d`, if it is there. */
  function Find(d: Dict, k: string): (r: Option<nat>)
    ensures r.Some? ==> r.value < |d| && d[r.value].0 == k
    ensures r.None? <==> k !in Keys(d)
  {
    if d == [] then None
    else if d[|d| - 1].0 == k then
      assert Keys(d)[|d| - 1] == k;
      Some(|d| - 1)
    else
      var r := Find(d[..|d| - 1], k);
      assert Keys(d) == Keys(d[..|d| - 1]) + [d[|d| - 1].0];
      r
  }

  /** With distinct keys, a key is found where it stands. */
  lemma FindUnique(d: Dict, i: nat)
    requires DistinctKeys(d) && i < |d|
    ensures Find(d, d[i].0) == Some(i)
  {
    assert Keys(d)[i] == d[i].0;
  }

  /** `d[k]`, or None where Python would raise KeyError. */
  function Lookup(d: Dict, k: string): Option<Port> {
    match Find(d, k)
    case Some(i) => Some(d[i].1)
    case None => None
  }

  /** `d[k]` gives a value exactly for a key of `d`, and that value is the one stored with `k`. */
  lemma LookupFinds(d: Dict, k: string)
    ensures Lookup(d, k).Some? <==> k in Keys(d)
    ensures Lookup(d, k).Some? ==> (k, Lookup(d, k).value) in d
  {
    if Lookup(d, k).Some? {
      var i := Find(d, k).value;
      assert d[i] == (k, Lookup(d, k).value);
    }
  }

  /** `d[k] = v`: an existing key keeps its place and takes the new value; a new key goes last. */
  function Put(d: Dict, k: string, v: Port): (r: Dict)
    requires DistinctKeys(d)
    ensures DistinctKeys(r)
    ensures Keys(r) == if k in Keys(d) then Keys(d) else Keys(d) + [k]
    ensures Lookup(r, k) == Some(v)
    ensures forall i :: 0 <= i < |d| && d[i].0 != k ==> r[i] == d[i]
    ensures forall k' :: k' != k ==> Lookup(r, k') == Lookup(d, k')
  {
    match Find(d, k)
    case Some(i) =>
      assert Keys(d)[i] == k;
      Replaced(d, i, v);
      d[i := (k, v)]
    case None =>
      Appended(d, k, v);
      d + [(k, v)]
  }

  lemma Replaced(d: Dict, i: nat, v: Port)
    requires DistinctKeys(d) && i < |d|
    ensures var r := d[i := (d[i].0, v)];
            && DistinctKeys(r) && Keys(r) == Keys(d) && Lookup(r, d[i].0) == Some(v)
            && forall k' :: k' != d[i].0 ==> Lookup(r, k') == Lookup(d, k')
  {
    var k := d[i].0;
    var r := d[i := (k, v)];
    FindUnique(r, i);
    assert forall j :: 0 <= j < |d| ==> Keys(r)[j] == Keys(d)[j];
    forall k' | k' != k
      ensures Lookup(r, k') == Lookup(d, k')
    {
      var f := Find(d, k');
      if f.Some? {
        FindUnique(r, f.value);
      }
    }
  }

  lemma Appended(d: Dict, k: string, v: Port)
    requires DistinctKeys(d) && k !in Keys(d)
    ensures var r := d + [(k, v)];
            && DistinctKeys(r) && Keys(r) == Keys(d) + [k] && Lookup(r, k) == Some(v)
            && forall k' :: k' != k ==> Lookup(r, k') == Lookup(d, k')
  {
    var r := d + [(k, v)];
    assert Keys(r) == Keys(d) + [k];
    forall i | 0 <= i < |d|
      ensures d[i].0 != k
    {
      assert Keys(d)[i] == d[i].0;
    }
    FindUnique(r, |d|);
    forall k' | k' != k
      ensures Lookup(r, k') == Lookup(d, k')
    {
      var f := Find(d, k');
      if f.Some? {
        FindUnique(r, f.value);
      }
    }
  }

  /** The dictionary value built from one capture: its storage group and its two dimension groups joined. */
  function ToPort(c: PortCapture): Port {
    Port(c.storage, c.dimA + c.dimB)
  }

  /** The names of the captures, in the order they were found. */
  function Names(cs: seq<PortCapture>): seq<string> {
    seq(|cs|, i requires 0 <= i < |cs| => cs[i].name)
  }

  /** The dictionary after the captures have been stored one by one, from the first to the last. */
  function Merge(cs: seq<PortCapture>): (d: Dict)
    ensures DistinctKeys(d)
  {
    if cs == [] then []
    else
      var c := cs[|cs| - 1];
      Put(Merge(cs[..|cs| - 1]), c.name, ToPort(c))
  }

  lemma NamesSnoc(cs: seq<PortCapture>)
    requires cs != []
    ensures Names(cs) == Names(cs[..|cs| - 1]) + [cs[|cs| - 1].name]
  {
  }

  /** The first place `k` occurs in `ns`. */
  function FirstIndex(ns: seq<string>, k: string): (i: nat)
    requires k in ns
    ensures i < |ns| && ns[i] == k && forall j :: 0 <= j < i ==> ns[j] != k
  {
    if ns[0] == k then 0 else 1 + FirstIndex(ns[1..], k)
  }

  lemma {:induction false} FirstIndexSnoc(ns: seq<string>, x: string, k: string)
    requires k in ns
    ensures FirstIndex(ns + [x], k) == FirstIndex(ns, k)
  {
    var i := FirstIndex(ns, k);
    var j := FirstIndex(ns + [x], k);
    assert (ns + [x])[i] == k;
    assert j <= i;
    assert ns[j] == k;
  }

  lemma FirstIndexNew(ns: seq<string>, x: string)
    requires x !in ns
    ensures FirstIndex(ns + [x], x) == |ns|
  {
  }

  /**
   * The keys of the assembled dictionary are exactly the declared names, each once, ordered by
   * where the name was first declared.
   */
  lemma {:induction false} MergeKeys(cs: seq<PortCapture>)
    ensures forall k :: k in Keys(Merge(cs)) <==> k in Names(cs)
    ensures forall i, j :: 0 <= i < j < |Merge(cs)| ==>
              && Merge(cs)[i].0 in Names(cs) && Merge(cs)[j].0 in Names(cs)
              && FirstIndex(Names(cs), Merge(cs)[i].0) < FirstIndex(Names(cs), Merge(cs)[j].0)
  {
    if cs != [] {
      var init := cs[..|cs| - 1];
      var c := cs[|cs| - 1];
      var m := Merge(init);
      MergeKeys(init);
      NamesSnoc(cs);
      var r := Merge(cs);
      assert r == Put(m, c.name, ToPort(c));
      forall k
        ensures k in Keys(r) <==> k in Names(cs)
      {
        assert k in Names(cs) <==> k in Names(init) || k == c.name;
      }
      forall i, j | 0 <= i < j < |r|
        ensures && r[i].0 in Names(cs) && r[j].0 in Names(cs)
                && FirstIndex(Names(cs), r[i].0) < FirstIndex(Names(cs), r[j].0)
      {
        assert Keys(r)[i] == r[i].0 && Keys(r)[j] == r[j].0;
        if c.name in Keys(m) {
          assert Keys(m)[i] == r[i].0 && Keys(m)[j] == r[j].0;
          FirstIndexSnoc(Names(init), c.name, r[i].0);
          FirstIndexSnoc(Names(init), c.name, r[j].0);
        } else if j < |m| {
          assert Keys(m)[i] == r[i].0 && Keys(m)[j] == r[j].0;
          FirstIndexSnoc(Names(init), c.name, r[i].0);
          FirstIndexSnoc(Names(init), c.name, r[j].0);
        } else {
          assert Keys(m)[i] == r[i].0;
          assert r[j].0 == c.name;
          FirstIndexSnoc(Names(init), c.name, r[i].0);
          FirstIndexNew(Names(init), c.name);
        }
      }
    }
  }

  /** A name has an entry in the assembled dictionary exactly when some capture declares it. */
  lemma {:induction false} MergeFinds(cs: seq<PortCapture>, k: string)
    ensures Lookup(Merge(cs), k).None? <==> k !in Names(cs)
  {
    if cs != [] {
      var init := cs[..|cs| - 1];
      var c := cs[|cs| - 1];
      assert Merge(cs) == Put(Merge(init), c.name, ToPort(c));
      MergeFinds(init, k);
      NamesSnoc(cs);
    }
  }

  /** The entry of a name is the value built from its last declaration. */
  lemma {:induction false} MergeLast(cs: seq<PortCapture>, k: string, i: nat)
    requires i < |cs| && cs[i].name == k && forall j :: i < j < |cs| ==> cs[j].name != k
    ensures Lookup(Merge(cs), k) == Some(ToPort(cs[i]))
  {
    var init := cs[..|cs| - 1];
    var c := cs[|cs| - 1];
    assert Merge(cs) == Put(Merge(init), c.name, ToPort(c));
    if i < |cs| - 1 {
      assert c.name != k && init[i] == cs[i];
      assert forall j :: i < j < |init| ==> init[j] == cs[j];
      MergeLast(init, k, i);
    }
  }

  /**
   * Looking a name up in the assembled dictionary gives the fields of the last declaration of
   * that name, and nothing for a name never declared.
   */
  lemma MergeLookup(cs: seq<PortCapture>, k: string)
    ensures Lookup(Merge(cs), k).None? <==> k !in Names(cs)
    ensures forall i :: 0 <= i < |cs| && cs[i].name == k && (forall j :: i < j < |cs| ==> cs[j].name != k) ==>
              Lookup(Merge(cs), k) == Some(ToPort(cs[i]))
  {
    MergeFinds(cs, k);
    forall i | 0 <= i < |cs| && cs[i].name == k && (forall j :: i < j < |cs| ==> cs[j].name != k)
      ensures Lookup(Merge(cs), k) == Some(ToPort(cs[i]))
    {
      MergeLast(cs, k, i);
    }
  }

  /** The last place `k` occurs in `ns`. */
  function LastIndex(ns: seq<string>, k: string): (i: nat)
    requires k in ns
    ensures i < |ns| && ns[i] == k && forall j :: i < j < |ns| ==> ns[j] != k
  {
    if ns[|ns| - 1] == k then |ns| - 1 else LastIndex(ns[..|ns| - 1], k)
  }

  /** Every entry of the assembled dictionary is the value built from a capture of that name. */
  lemma MergeEntries(cs: seq<PortCapture>)
    ensures forall i :: 0 <= i < |Merge(cs)| ==>
              exists j :: 0 <= j < |cs| && cs[j].name == Merge(cs)[i].0 && Merge(cs)[i].1 == ToPort(cs[j])
  {
    var m := Merge(cs);
    forall i | 0 <= i < |m|
      ensures exists j :: 0 <= j < |cs| && cs[j].name == m[i].0 && m[i].1 == ToPort(cs[j])
    {
      var k := m[i].0;
      FindUnique(m, i);
      assert Lookup(m, k) == Some(m[i].1);
      MergeFinds(cs, k);
      var j := LastIndex(Names(cs), k);
      assert forall j' :: j < j' < |cs| ==> cs[j'].name == Names(cs)[j'] != k;
      MergeLast(cs, k, j);
    }
  }

  /** The dictionary is empty exactly when nothing was captured. */
  lemma MergeEmpty(cs: seq<PortCapture>)
    ensures Merge(cs) == [] <==> cs == []
  {
    if cs != [] {
      var c := cs[|cs| - 1];
      assert Lookup(Merge(cs), c.name) == Some(ToPort(c));
    }
  }

  /**
   * The loop of lines 156-162 (and 163-169): each capture in turn is stored under its name with
   * its storage group and the concatenation of its two dimension groups.
   */
  method Assemble(captures: seq<PortCapture>) returns (dict: Dict)
    ensures dict == Merge(captures)
  {
    dict := [];
    for i := 0 to |captures|
      invariant dict == Merge(captures[..i])
    {
      var signalType := captures[i].storage;
      var signalDimension := captures[i].dimA + captures[i].dimB;
      var signalName := captures[i].name;
      assert captures[..i + 1][..i] == captures[..i];
      dict := Put(dict, signalName, Port(signalType, signalDimension));
    }
    assert captures[..|captures|] == captures;
  }
}
