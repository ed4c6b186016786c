/**
 * The extraction pipeline of get_module_io.py (lines 127-183): the module name must be found
 * exactly once, each direction's declarations are collected into a dictionary, and the report
 * rows are produced for `<module name>_io.csv`.
 */
module Extraction {
  import opened Wrappers
  import opened Patterns
  import opened Scan
  import opened PatternLaws
  import opened Assembly
  import opened Report

  /** The conditions the script reports: the first ends the run, the other two are advisories. */
  datatype Diagnostic = ModuleNameNotIdentified | NoInputsIdentified | NoOutputsIdentified

  /** What a successful extraction yields: the module name and one dictionary per direction. */
  datatype Interface = Interface(name: string, inputs: Dict, outputs: Dict)

  datatype Extracted = Extracted(iface: Interface, advisories: seq<Diagnostic>)

  /**
   * The advisories printed for the two scans (lines 138-139, 146-147): one for each scan that found
   * nothing, the input advisory before the output advisory, and never the module-name error.
   */
  function Advisories(inputs: seq<PortCapture>, outputs: seq<PortCapture>): (r: seq<Diagnostic>)
    ensures ModuleNameNotIdentified !in r
    ensures NoInputsIdentified in r <==> inputs == []
    ensures NoOutputsIdentified in r <==> outputs == []
    ensures |r| == 2 ==> r == [NoInputsIdentified, NoOutputsIdentified]
    ensures |r| == (if inputs == [] then 1 else 0) + (if outputs == [] then 1 else 0)
  {
    var a := if inputs == [] then [NoInputsIdentified] else [];
    var b := if outputs == [] then [NoOutputsIdentified] else [];
    assert forall x :: x in a + b <==> x in a || x in b;
    a + b
  }

  /**
   * Extraction with an empty direction handled as an empty dictionary: it fails exactly when the
   * header pattern does not match exactly once, and an advisory is raised exactly for a direction
   * whose dictionary is empty.
   */
  function Extract(text: string): (r: Result<Extracted, Diagnostic>)
    ensures r.Failure? <==> |ModuleNames(text)| != 1
    ensures r.Failure? ==> r.error == ModuleNameNotIdentified
    ensures r.Success? ==> && r.value.iface.name == ModuleNames(text)[0] && IsIdent(r.value.iface.name)
                           && r.value.iface.inputs == Merge(PortMatches(text, Input))
                           && r.value.iface.outputs == Merge(PortMatches(text, Output))
                           && ModuleNameNotIdentified !in r.value.advisories
                           && (NoInputsIdentified in r.value.advisories <==> r.value.iface.inputs == [])
                           && (NoOutputsIdentified in r.value.advisories <==> r.value.iface.outputs == [])
                           && r.value.advisories == Advisories(PortMatches(text, Input), PortMatches(text, Output))
  {
    var names := ModuleNames(text);
    if |names| != 1 then Failure(ModuleNameNotIdentified)
    else
      var ins := PortMatches(text, Input);
      var outs := PortMatches(text, Output);
      MergeEmpty(ins);
      MergeEmpty(outs);
      Success(Extracted(Interface(names[0], Merge(ins), Merge(outs)), Advisories(ins, outs)))
  }

  /** Every entry of an extracted dictionary carries a port name and a storage of `wire`, `reg` or nothing. */
  lemma ExtractedEntries(text: string, d: Direction)
    requires Extract(text).Success?
    ensures var iface := Extract(text).value.iface;
            var dict := if d == Input then iface.inputs else iface.outputs;
            forall i :: 0 <= i < |dict| ==> IsName(dict[i].0) && dict[i].1.storage in {"", "wire", "reg"}
  {
    var cs := PortMatches(text, d);
    assert Extract(text).value.iface.inputs == Merge(PortMatches(text, Input));
    assert Extract(text).value.iface.outputs == Merge(PortMatches(text, Output));
    MergedShapes(cs);
  }

  /** The entries assembled from well-formed captures carry a port name and storage `wire`, `reg` or nothing. */
  lemma MergedShapes(cs: seq<PortCapture>)
    requires forall i :: 0 <= i < |cs| ==> WellFormed(cs[i])
    ensures forall i :: 0 <= i < |Merge(cs)| ==> IsName(Merge(cs)[i].0) && Merge(cs)[i].1.storage in {"", "wire", "reg"}
  {
    var m := Merge(cs);
    MergeEntries(cs);
    forall i | 0 <= i < |m|
      ensures IsName(m[i].0) && m[i].1.storage in {"", "wire", "reg"}
    {
      var j :| 0 <= j < |cs| && cs[j].name == m[i].0 && m[i].1 == ToPort(cs[j]);
      assert WellFormed(cs[j]);
    }
  }

  datatype Csv = Csv(fileName: string, rows: seq<Row>)

  /** The extraction in terms of the three scans it reads. */
  lemma ExtractFrom(text: string, names: seq<string>, ins: seq<PortCapture>, outs: seq<PortCapture>)
    requires names == ModuleNames(text) && ins == PortMatches(text, Input) && outs == PortMatches(text, Output)
    ensures Extract(text) == if |names| != 1 then Failure(ModuleNameNotIdentified)
                             else Success(Extracted(Interface(names[0], Merge(ins), Merge(outs)), Advisories(ins, outs)))
  {
  }

  /**
   * The script from the module-name check to the last report row (lines 128-183), with an empty
   * direction assembled as an empty dictionary.
   */
  method Run(text: string) returns (r: Result<Csv, Diagnostic>, advisories: seq<Diagnostic>)
    ensures r.Failure? <==> Extract(text).Failure?
    ensures r.Failure? ==> r.error == ModuleNameNotIdentified && advisories == []
    ensures r.Success? ==> && var e := Extract(text).value;
                           && r.value.fileName == e.iface.name + "_io.csv"
                           && IsReport(r.value.rows, e.iface.inputs, e.iface.outputs)
                           && advisories == e.advisories
  {
    var matches := ModuleNames(text);
    if |matches| != 1 {
      return Failure(ModuleNameNotIdentified), [];
    }
    var csv;
    csv, advisories := WriteInterface(matches[0], PortMatches(text, Input), PortMatches(text, Output));
    r := Success(csv);
  }

  /**
   * Lines 137-183 once the module name is known: an advisory for each empty scan, the two
   * dictionaries, and the report rows for `<module name>_io.csv`.
   */
  method WriteInterface(moduleName: string, moduleInputs: seq<PortCapture>, moduleOutputs: seq<PortCapture>)
    returns (csv: Csv, advisories: seq<Diagnostic>)
    ensures csv.fileName == moduleName + "_io.csv"
    ensures IsReport(csv.rows, Merge(moduleInputs), Merge(moduleOutputs))
    ensures advisories == Advisories(moduleInputs, moduleOutputs)
  {
    advisories := [];
    if |moduleInputs| == 0 {
      advisories := advisories + [NoInputsIdentified];
    }
    if |moduleOutputs| == 0 {
      advisories := advisories + [NoOutputsIdentified];
    }
    var inputDictionary := Assemble(moduleInputs);
    var outputDictionary := Assemble(moduleOutputs);
    var rows := WriteRows(inputDictionary, outputDictionary);
    csv := Csv(moduleName + "_io.csv", rows);  // the file name of line 172
  }

  // ---------------------------------------------------------------------------
  // The script as written: `numInputs` and `numOutputs` are bound only when their
  // scan found something, but the loops at lines 156 and 163 read them regardless.
  // ---------------------------------------------------------------------------

  datatype AsWritten = Aborted(diagnostic: Diagnostic) | Unbound(variable: string) | Completed(iface: Interface)

  /**
   * How the script as written ends: the name check, then the first loop bound it cannot read, else
   * the interface. It completes exactly when the extraction succeeds without an advisory, and then
   * with the extraction's interface; it stops on the unbound count of the first empty direction.
   */
  function RunAsWritten(text: string): (r: AsWritten)
    ensures r.Aborted? <==> Extract(text).Failure?
    ensures r.Aborted? ==> r.diagnostic == ModuleNameNotIdentified
    ensures r.Completed? <==> Extract(text).Success? && Extract(text).value.advisories == []
    ensures r.Completed? ==> r.iface == Extract(text).value.iface
    ensures r.Unbound? ==> r.variable == if NoInputsIdentified in Extract(text).value.advisories then "numInputs" else "numOutputs"
  {
    var names := ModuleNames(text);
    var ins := PortMatches(text, Input);
    var outs := PortMatches(text, Output);
    ExtractFrom(text, names, ins, outs);
    if |names| != 1 then Aborted(ModuleNameNotIdentified)
    else if ins == [] then Unbound("numInputs")
    else if outs == [] then Unbound("numOutputs")
    else Completed(Interface(names[0], Merge(ins), Merge(outs)))
  }


  /** Where both directions have declarations, the script as written and the extraction agree. */
  lemma AsWrittenAgrees(text: string)
    requires |ModuleNames(text)| == 1 && PortMatches(text, Input) != [] && PortMatches(text, Output) != []
    ensures RunAsWritten(text) == Completed(Extract(text).value.iface)
    ensures Extract(text).value.advisories == []
  {
    ExtractFrom(text, ModuleNames(text), PortMatches(text, Input), PortMatches(text, Output));
  }

  /**
   * A module without input declarations stops the script as written at the first loop, although
   * the advisory it has just printed promises to carry on; the extraction yields an empty input
   * dictionary instead.
   */
  lemma AsWrittenStopsWithoutInputs(text: string)
    requires |ModuleNames(text)| == 1 && PortMatches(text, Input) == []
    ensures RunAsWritten(text) == Unbound("numInputs")
    ensures Extract(text).Success? && Extract(text).value.iface.inputs == []
    ensures NoInputsIdentified in Extract(text).value.advisories
  {
  }

  /** The same for a module with inputs but no output declarations, at the second loop. */
  lemma AsWrittenStopsWithoutOutputs(text: string)
    requires |ModuleNames(text)| == 1 && PortMatches(text, Input) != [] && PortMatches(text, Output) == []
    ensures RunAsWritten(text) == Unbound("numOutputs")
    ensures Extract(text).Success? && Extract(text).value.iface.outputs == []
    ensures NoOutputsIdentified in Extract(text).value.advisories
  {
  }

  /** A module header and nothing else: no input declaration, so the script as written stops at line 156. */
  const HeaderOnly: string := "module m ();"

  lemma HeaderOnlyNames()
    ensures ModuleNames(HeaderOnly) == ["m"]
  {
    var text := HeaderOnly;
    ConcatSeven("module", " ", "", "m", " ", "", "(");
    assert RenderHeader("m", false, false, " ", " ", "") == "module m (";
    assert text == RenderHeader("m", false, false, " ", " ", "") + ");";
    HeaderRoundTrip("m", false, false, " ", " ", "", ");");
    HeaderAtStart(text);
    HeaderAdvances(text);
    var first := Hit(0, 10, "m");
    assert MatchHeader(text, 0) == Some(first);
    forall p: nat | 10 <= p < |text|
      ensures MatchHeader(text, p).None?
    {
    }
    FindAllNone(MatchHeader, text, 10);
    assert FindAll(MatchHeader, text, 0) == [first];
  }

  lemma HeaderOnlyNoInputs()
    ensures PortMatches(HeaderOnly, Input) == []
  {
    assert forall p :: 0 <= p < |HeaderOnly| ==> HeaderOnly[p] != Keyword(Input)[0];
    NoKeywordNoPorts(HeaderOnly, Input);
  }

  /** On `module m ();` the script as written stops, where the extraction names the module and gives no inputs. */
  lemma HeaderOnlyStops()
    ensures RunAsWritten(HeaderOnly) == Unbound("numInputs")
    ensures Extract(HeaderOnly).Success? && Extract(HeaderOnly).value.iface.name == "m"
    ensures Extract(HeaderOnly).value.iface.inputs == []
    ensures NoInputsIdentified in Extract(HeaderOnly).value.advisories
  {
    HeaderOnlyNames();
    HeaderOnlyNoInputs();
    AsWrittenStopsWithoutInputs(HeaderOnly);
  }
}
