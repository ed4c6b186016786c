/**
 * The rows get_module_io.py hands to its CSV writer (lines 175-183): a fixed header, then one
 * row per input entry, then one row per output entry, each in dictionary order.
 */
module Report {
  import opened Wrappers
  import opened Assembly

  type Row = seq<string>

  const Header: Row := ["Signal Name", "Input/Output", "Signal Type", "Dimension"]

  /** The row written for one dictionary entry: name, direction, storage qualifier, dimension. */
  function EntryRow(e: (string, Port), direction: string): Row {
    [e.0, direction, e.1.storage, e.1.dimension]
  }

  /** `rows` is the report of the two dictionaries: the header, the inputs in order, then the outputs in order. */
  predicate IsReport(rows: seq<Row>, inputs: Dict, outputs: Dict) {
    && |rows| == 1 + |inputs| + |outputs|
    && rows[0] == Header
    && (forall i :: 0 <= i < |inputs| ==> rows[1 + i] == EntryRow(inputs[i], "Input"))
    && (forall j :: 0 <= j < |outputs| ==> rows[1 + |inputs| + j] == EntryRow(outputs[j], "Output"))
  }

  /** The header row, then the loop over the inputs and the loop over the outputs. */
  method WriteRows(inputs: Dict, outputs: Dict) returns (rows: seq<Row>)
    ensures IsReport(rows, inputs, outputs)
  {
    rows := [Header];
    for i := 0 to |inputs|
      invariant |rows| == 1 + i && rows[0] == Header
      invariant forall m :: 0 <= m < i ==> rows[1 + m] == EntryRow(inputs[m], "Input")
    {
      var (key, value) := inputs[i];
      rows := rows + [[key, "Input", value.storage, value.dimension]];
    }
    for j := 0 to |outputs|
      invariant |rows| == 1 + |inputs| + j && rows[0] == Header
      invariant forall m :: 0 <= m < |inputs| ==> rows[1 + m] == EntryRow(inputs[m], "Input")
      invariant forall m :: 0 <= m < j ==> rows[1 + |inputs| + m] == EntryRow(outputs[m], "Output")
    {
      var (key, value) := outputs[j];
      rows := rows + [[key, "Output", value.storage, value.dimension]];
    }
  }

  // ---------------------------------------------------------------------------
  // Reading a report back: the rows keep every entry of both dictionaries.
  // ---------------------------------------------------------------------------

  predicate Tagged(row: Row, direction: string) {
    |row| == 4 && row[1] == direction
  }

  /** How many rows from the start carry `direction`. */
  function Leading(rows: seq<Row>, direction: string): (n: nat)
    ensures n <= |rows|
    ensures forall i :: 0 <= i < n ==> Tagged(rows[i], direction)
    ensures n < |rows| ==> !Tagged(rows[n], direction)
  {
    if rows == [] || !Tagged(rows[0], direction) then 0 else 1 + Leading(rows[1..], direction)
  }

  lemma {:induction false} LeadingIs(rows: seq<Row>, direction: string, n: nat)
    requires n <= |rows|
    requires forall i :: 0 <= i < n ==> Tagged(rows[i], direction)
    requires n < |rows| ==> !Tagged(rows[n], direction)
    ensures Leading(rows, direction) == n
    decreases n
  {
    if n > 0 {
      assert Tagged(rows[0], direction);
      LeadingIs(rows[1..], direction, n - 1);
    }
  }

  /** The entries a block of four-cell rows describes. */
  function Entries(rows: seq<Row>): (d: Dict)
    requires forall i :: 0 <= i < |rows| ==> |rows[i]| == 4
  {
    seq(|rows|, i requires 0 <= i < |rows| => (rows[i][0], Port(rows[i][2], rows[i][3])))
  }

  /** The two dictionaries a report lists, or None when the rows are not laid out as a report. */
  function ReadBack(rows: seq<Row>): Option<(Dict, Dict)> {
    if rows == [] || rows[0] != Header then None
    else
      var body := rows[1..];
      var n := Leading(body, "Input");
      var rest := body[n..];
      if Leading(rest, "Output") == |rest| then Some((Entries(body[..n]), Entries(rest)))
      else None
  }

  /** Reading the report back gives both dictionaries, entry for entry and in order. */
  lemma ReadBackReport(rows: seq<Row>, inputs: Dict, outputs: Dict)
    requires IsReport(rows, inputs, outputs)
    ensures ReadBack(rows) == Some((inputs, outputs))
  {
    var body := rows[1..];
    var n := |inputs|;
    assert forall i :: 0 <= i < n ==> body[i] == EntryRow(inputs[i], "Input");
    if |outputs| > 0 {
      assert body[n] == EntryRow(outputs[0], "Output");
    }
    LeadingIs(body, "Input", n);
    var rest := body[n..];
    assert forall j :: 0 <= j < |outputs| ==> rest[j] == EntryRow(outputs[j], "Output");
    LeadingIs(rest, "Output", |rest|);
    assert Entries(body[..n]) == inputs;
    assert Entries(rest) == outputs;
  }
}
