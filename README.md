# get_module_io — the declaration-extraction pipeline, modelled in Dafny

`get_module_io.py` reads a Verilog or SystemVerilog module description and lists its ports. It
looks for one module header (`module <name> (` with an optional `$[PREFIX]` and an optional `#`).
It then collects every `input` and `output` declaration into one dictionary per direction. Each
dictionary maps a port name to its storage qualifier (`wire`, `reg` or nothing) and its dimension
text. Finally it produces the report rows for `<name>_io.csv`.

The model follows the script's own structure:

- `chars.dfy` (module `Chars`) holds the character classes of the three patterns. It also holds
  the greedy run of one class, which every `[...]+` and `\s*` performs.
- `patterns.dfy` (module `Patterns`) matches the header pattern (line 122) and the two port
  patterns (lines 124-125) by hand at a position of the text. It includes the one-character
  negative lookbehind and the backtracking over the optional storage group and the two optional
  dimension groups.
- `scan.dfy` (module `Scan`) models `re.findall`. It reports the matches left to right and
  without overlap, and it resumes where a match ended.
- `pattern_laws.dfy` (module `PatternLaws`) holds what the patterns recognise, stated against
  the text:
  - a header or a port declaration written out in the usual form is recognised with exactly its
    parts;
  - inside a text it is found at its own position unless the character before its keyword is a
    space, `/`, a letter or `_`.
- `assembly.dfy` (module `Assembly`) models the dictionaries of lines 154-169 as insertion-ordered
  sequences of (key, value) pairs.
  - `Put` is `d[k] = v`, and `Merge` is the effect of the loop.
  - The loop itself is the method `Assemble`.
- `report.dfy` (module `Report`) builds the rows of lines 175-183 with two loops. `ReadBack` recovers
  both dictionaries from the rows.
- `extraction.dfy` (module `Extraction`) is the script from the module-name check to the last
  row:
  - `Extract` is the pure specification, and `Run` and `WriteInterface` are the imperative
    script body.
  - `RunAsWritten` models how the script as written ends; see "Findings".

A preceding space blocks every keyword. The lookbehind `(?<!(?: |/|[a-zA-Z\_]))` refuses a
keyword after a space, a `/`, a letter or `_`. So in `module foo (input a, input [7:0] b, output
reg busy);` only `a` is found: the other two keywords follow a space. The model follows the code,
and `PatternLaws.PortFoundAt` states the rule in both directions.

The advisory branches (lines 138-139, 146-147) treat a direction without declarations as not
fatal: unlike the module-name check at line 132, they only print and do not call `exit()`.
Yet the loops at lines 156 and 163 then read `numInputs` and `numOutputs`, which only the other
branch binds. `Extract`, `Run` and
`WriteInterface` carry on with an empty dictionary for that direction, as the advisory branches
do. The script as written is modelled beside them (see "Findings").

## Model

| member | source | states |
|---|---|---|
| Patterns.Dimension | get_module_io.py:124-125 | a dimension group that is found is one whole token: `[...]` over the bracket alphabet, `$${NAME}` or `$[NAME]` |
| Patterns.DimensionUnique | get_module_io.py:124-125 | whenever a whole dimension token starts at a position, the dimension group takes exactly that token |
| Patterns.NoDimension | get_module_io.py:124-125 | without `[`, `$${` or `$[` at a position, no dimension token starts there |
| Patterns.Qualifier | get_module_io.py:124-125 | the qualifier atom matches `wire` or `reg` followed by a word boundary, and it fails exactly when neither stands there |
| Patterns.MatchFrom | get_module_io.py:124-125 | the groups after the qualifier keep the storage found, give each dimension either its earlier value or a whole token, and end in a non-empty name over `[A-Za-z0-9_${}]` |
| Patterns.PortBody | get_module_io.py:124-125 | a port match begins with its keyword, extends past it, and captures a well-formed tuple; a non-empty storage is the text right after the keyword's whitespace |
| Patterns.MatchPort | get_module_io.py:124-125 | a port match starts at the position tried, ends inside the text, passes the lookbehind, starts with `input`/`output`, and its capture is well formed |
| Patterns.HeaderTail | get_module_io.py:122 | after the optional prefix the header captures an identifier and ends on `(` |
| Patterns.HeaderBody | get_module_io.py:122 | a header match begins with `module` and ends on `(`, and its capture is an identifier |
| Patterns.MatchHeader | get_module_io.py:122 | a header match starts at the position tried, passes the lookbehind, begins with `module`, ends on `(` and captures an identifier |
| Chars.SpaceClass | get_module_io.py:122-125 | space, tab, newline and carriage return are `\s`, and no `\s` character can start a name, a dimension, `#`, `(` or `,`, so every `\s*` of the patterns is taken whole |
| Scan.FindAll | get_module_io.py:128-145 | the matches come in source order, never overlap, lie inside the text, and each is what the pattern finds at its start |
| Scan.FindAllComplete | get_module_io.py:128-145 | every position where the pattern matches lies inside a reported match, so nothing is skipped |
| Scan.FindAllNone | get_module_io.py:128-145 | where the pattern matches nowhere, nothing is found |
| Scan.ModuleNames | get_module_io.py:128 | every module name found is an identifier `[A-Za-z_0-9]+` |
| Scan.PortMatches | get_module_io.py:137-150 | every port capture has storage `""`, `"wire"` or `"reg"`, each dimension empty or one whole token, and a non-empty name |
| Scan.NoKeywordNoPorts | get_module_io.py:124-125 | a text without the keyword's first letter has no declaration of that direction |
| PatternLaws.PortRoundTrip | get_module_io.py:124-125 | a declaration written as keyword, optional qualifier, up to two dimensions and an identifier, then `,`, is recognised with exactly those parts, whatever follows, and the match ends after the comma |
| PatternLaws.PortFoundAt | get_module_io.py:124-125 | such a declaration at the start of a text, or after a character other than a space, `/`, a letter or `_` (a newline, a tab, `(`, `,`), is matched at its own position with exactly its parts and spans exactly its text; after one of those four it is not matched |
| PatternLaws.QualifierIsName | get_module_io.py:124-125 | an identifier followed directly by its comma is never taken as the storage qualifier, so `input wire,` declares a port named `wire` |
| PatternLaws.HeaderRoundTrip | get_module_io.py:122 | a header written as `module`, a non-empty run of `\s`, an optional `$[PREFIX]`, an identifier, any run of `\s`, then either `(` or `#`, any run of `\s` and `(`, is recognised with exactly that identifier, whatever follows, and the match ends on the `(` |
| PatternLaws.SerialTxHeaderFound | get_module_io.py:122 | a header laid out as in the module-name message at lines 54-55, `module serialTX #` at the start of a line with `(` on the next line, is recognised by the header body (the lookbehind set aside) with the name `serialTX` |
| PatternLaws.HeaderFoundAt | get_module_io.py:122 | such a header at the start of a text, or after a character other than a space, `/`, a letter or `_`, is matched at its own position with its name and spans exactly its text; after one of those four it is not matched |
| Assembly.LookupFinds | get_module_io.py:160-162 | `d[k]` gives a value exactly when `k` is a key of `d`, and that value is the one stored with `k` |
| Assembly.Put | get_module_io.py:160-162 | `d[k] = v` keeps the keys distinct; a present key keeps its place and a new one goes last; `k` now maps to `v`; every other entry and lookup is unchanged |
| Assembly.Merge | get_module_io.py:154-169 | the dictionary built from the captures never holds a key twice |
| Assembly.MergeKeys | get_module_io.py:156-169 | the keys are exactly the declared names, ordered by where each name was first declared |
| Assembly.MergeFinds | get_module_io.py:157-165 | a name has an entry in the assembled dictionary exactly when some capture declares it |
| Assembly.MergeLast | get_module_io.py:157-165 | the entry of a name is built from its last declaration: its storage group and its two dimension groups joined |
| Assembly.MergeLookup | get_module_io.py:157-165 | looking up a name gives the storage and the dimension concatenation of its last declaration, and nothing for an undeclared name |
| Assembly.MergeEntries | get_module_io.py:157-169 | every entry is the value built from some capture of that name |
| Assembly.MergeEmpty | get_module_io.py:154-156 | the dictionary is empty exactly when no declaration was captured |
| Assembly.Assemble | get_module_io.py:154-169 | the loop produces the dictionary `Merge` describes |
| Report.WriteRows | get_module_io.py:175-183 | the rows are the fixed header, then one `Input` row per input entry in dictionary order, then one `Output` row per output entry, `1 + |inputs| + |outputs|` rows in all |
| Report.ReadBackReport | get_module_io.py:175-183 | reading the rows back recovers both dictionaries, entry for entry and in order |
| Extraction.Advisories | get_module_io.py:137-147 | an advisory is raised exactly for each scan that found nothing, the input one before the output one, and never the module-name error |
| Extraction.Extract | get_module_io.py:128-150 | extraction fails with the module-name error exactly when the header pattern does not match exactly once; otherwise it names the one match and raises an advisory exactly for an empty dictionary, one per empty scan with the input advisory first |
| Extraction.ExtractedEntries | get_module_io.py:157-159 | every extracted entry has a port name as key and storage `wire`, `reg` or empty, never a default |
| Extraction.Run | get_module_io.py:128-183 | the script fails, with no report and no advisory, exactly when extraction fails; otherwise it writes the report of the extracted dictionaries to `<name>_io.csv` with the extraction's advisories |
| Extraction.WriteInterface | get_module_io.py:137-183 | once the name is known: an advisory per empty scan, and the report rows of both assembled dictionaries |
| Extraction.RunAsWritten | get_module_io.py:128-169 | the script as written aborts exactly when extraction fails; it completes exactly when extraction succeeds with no advisory, and then with the extracted interface; otherwise it stops on `numInputs` when the input scan was empty and on `numOutputs` when only the output scan was |
| Extraction.AsWrittenAgrees | get_module_io.py:138-169 | when both directions have declarations, the script as written ends with the interface extraction yields, and no advisory |
| Extraction.AsWrittenStopsWithoutInputs | get_module_io.py:138-142 | without input declarations the script as written stops on the unbound `numInputs`, where extraction gives an empty input dictionary and the advisory |
| Extraction.AsWrittenStopsWithoutOutputs | get_module_io.py:146-150 | with inputs but no output declarations the script as written stops on the unbound `numOutputs`, where extraction gives an empty output dictionary and the advisory |
| Extraction.HeaderOnlyStops | get_module_io.py:156 | on `module m ();` the script as written stops at the first loop, while extraction names module `m` with no inputs |

## Left out

- Argument parsing, the file-existence check and reading the file (lines 95-119) are not modelled. The model starts from the text.
- The messages (lines 38-92) are not modelled, and neither are the `print` calls and `exit()`. Errors and advisories are the datatype `Extraction.Diagnostic`; `Run` returns them.
- Creating the CSV file and the quoting done by `csv.writer` (lines 173-174) are left out. The model produces the row sequence.
- The job-done and goodbye messages (lines 186-188) are left out.
- The parameter pattern (line 123) is compiled but never applied, so it is not modelled.
- The keyword group `(input)`/`(output)` of the port patterns is the same for every match of a pattern, and the script never reads it. `Patterns.PortCapture` holds only the four groups the script uses.
- Patterns.Qualifier: the word boundary after `wire`/`reg` uses ASCII word characters. Python's `\b` on a str pattern also treats non-ASCII letters and digits as word characters.
- `\s` is the set of characters for which `str.isspace()` holds, listed in `Chars.IsSpace`. Python's tables are not otherwise modelled.
- PatternLaws.PortRoundTrip: covers declarations written with single spaces and an identifier as the name, closed by a comma. Other spellings the pattern accepts (several spaces, tabs, a name with `$`, `{`, `}`, the last port of a list with no comma) are covered only by the general contracts of `Patterns.MatchPort` and `Scan.PortMatches`.
- Backtracking corners of the port pattern beyond the storage and dimension groups are modelled only as far as `Patterns.MatchFrom` goes. `\s*` is always taken maximally, because no later atom can start with whitespace (`Chars.SpaceClass`).

## Findings

| source | as written | input that shows it | evidently intended | confidence | as-written member | corrected member |
|---|---|---|---|---|---|---|
| get_module_io.py:138-142, 156 | `numInputs` (and `moduleInputs`) are bound only when the input scan found something, but the loop at line 156 reads `numInputs` anyway; the same holds for `numOutputs` at line 163 | `module m ();` — one header and no `input` declaration | the advisory is not fatal: go on with an empty dictionary for that direction | high, not executed | Extraction.HeaderOnlyStops | Extraction.Extract |
