# qihe placement export, modelled in Dafny

qihe is a KiCad plugin that writes pick-and-place files for a placement
machine. Each file covers one board side. This project models the two
parts of the plugin that hold its logic, both in `qihe/qihe.py`:

- **Reading the component mapping file** (`load_component_mapping`):
  - the file is line-oriented text;
  - it yields a table from component value to (nozzle, feeder);
  - it yields an ordered list of exclusion patterns and an ordered list of
    priority patterns;
  - when the file is missing, a default template made only of comments is
    written first (`qihe/functions.py`).
- **Writing one placement file** (`write_qihe_file`):
  - keep the footprints on the requested copper layer;
  - put each one into one of five groups: excluded by attribute, excluded
    by pattern, priority, mapped, unmapped;
  - sort the priority, mapped and unmapped groups by the first word of the
    component value;
  - write an 11-column header, one row per emitted footprint and a fixed
    20-row trailer.

Modules:

- `Wrappers`: `Option`.
- `PyStr`: the Python string operations the plugin relies on:
  - `str.strip()`;
  - `str.split(sep)`;
  - `str.split()[0]`, raising on a blank string (`FirstToken` returns None);
  - the code-point order that `list.sort` uses on strings.
- `Sorting`: `list.sort(key=...)` as a stable insertion sort on keys.
- `Mapping`:
  - the line grammar (`ReadDirective`);
  - the file as a fold over its lines (`ParseLines`);
  - the imperative reading loop (`ReadMapping`), proved equal to the fold.
- `MappingTemplate`: the default mapping file, line by line.
- `MappingFile`: `load_component_mapping` with the missing-file branch.
- `Export`:
  - the footprint record;
  - the pattern search;
  - the classification;
  - the row layout;
  - the trailer;
  - the specification function `ExportFile`;
  - the imperative exporter `WriteQiheFile`, proved equal to it;
  - the output file name.

How the host is represented:

- The file system becomes values:
  - the mapping file is its text, or None when it does not exist;
  - the template that `LoadComponentMapping` creates is its text before
    newline translation, with `\n` line ends. A text-mode write on Windows
    stores `\r\n` instead. Reading gives the same result either way, because
    `Lines` also cuts at `\r` and `IgnoredLineVanishes` drops the extra
    empty lines;
  - the written placement file is its sequence of CSV rows, plus a `failed`
    flag. The flag marks the exceptions caught at qihe/qihe.py:297-298 that
    come from a raising pattern search or a blank sort key.
- The regular-expression engine is a parameter
  `matches: (pattern, value) -> Found | NotFound | BadPattern`.
  `BadPattern` stands for `re.search` raising.

## Model

| member | source | states |
|---|---|---|
| PyStr.StripIsTrim | qihe/qihe.py:174 | `strip()` gives a contiguous slice with only whitespace cut on either side, and it is empty exactly when the line is all whitespace |
| PyStr.StripIdempotent | qihe/qihe.py:179 | stripping an already stripped field changes nothing |
| PyStr.SplitPieces | qihe/qihe.py:177 | `split(',')` yields pieces that contain no separator and that, joined with the separator, give the line back |
| PyStr.SplitJoin | qihe/qihe.py:172-173 | cutting a text of separator-free lines at line breaks gives back exactly those lines |
| PyStr.FirstTokenNone | qihe/qihe.py:156 | `split()[0]` fails exactly when the value is empty or all whitespace |
| PyStr.FirstTokenIsFirstWord | qihe/qihe.py:156 | otherwise the key is the first maximal run of non-whitespace characters, preceded only by whitespace |
| PyStr.LessTotal | qihe/qihe.py:246 | the string order used by the sort relates any two distinct keys |
| PyStr.LessTransitive | qihe/qihe.py:246 | the string order used by the sort is transitive |
| PyStr.LessIrreflexive | qihe/qihe.py:246 | the string order used by the sort is strict |
| Sorting.SortBy | qihe/qihe.py:246 | the sorted group is ordered by key, is a permutation of the group, and keeps the relative order of equal keys (stability) |
| Sorting.StableSortUnique | qihe/qihe.py:246 | two sequences that are sorted by key and agree on the subsequence of every key are equal, so `SortBy` is the one result a stable sort can give |
| Mapping.Fields | qihe/qihe.py:177 | a stripped line has at least one comma field, and the fields joined by commas give the line back |
| Mapping.ReadDirective | qihe/qihe.py:174-190 | a line is skipped exactly when it is blank, a comment, or has fewer than three fields. Tag `E` gives an exclusion line and tag `P` a priority line. Their patterns number at least one and join back to the stripped third field. Any other tag maps the third field's pieces to (stripped tag, stripped second field) |
| Mapping.DirectivePieces | qihe/qihe.py:181 | no pattern or name read from a line contains `:` |
| Mapping.ReadDirectiveStrips | qihe/qihe.py:174 | surrounding whitespace on a line never changes what it says |
| Mapping.Assign | qihe/qihe.py:189-190 | after a mapping line, every stripped name maps to the line's placement and every other key keeps its value; no key is lost or invented |
| Mapping.ParseLinesConcat | qihe/qihe.py:173-190 | reading a file in two parts: the second part's table overrides the first's, and each pattern list is the first part's followed by the second's |
| Mapping.IgnoredLineVanishes | qihe/qihe.py:175-178 | a blank line, a comment or a line with fewer than three fields can be deleted anywhere without changing the result |
| Mapping.LastDefinitionWins | qihe/qihe.py:188-190 | a value is in the table exactly when some mapping line names it, and it maps to the placement of the last such line |
| Mapping.PatternLineAppends | qihe/qihe.py:180-187 | an `E` line appends its patterns, in order, to the exclusion list and touches neither the priority list nor the table; a `P` line does the same for the priority list |
| Mapping.ExtraFieldsIgnored | qihe/qihe.py:177-179 | for any line with at least three fields, appending a comma and further text changes nothing: the extra fields are dropped, and whitespace before the new comma is stripped from the third field |
| Mapping.ReadMapping | qihe/qihe.py:169-197 | the reading loop and its inner assignment loop build exactly the fold of `ReadDirective` over the file's lines |
| MappingTemplate.TemplateLine | qihe/functions.py:64-97 | every line of the default template starts with `#` |
| MappingTemplate.DefaultTemplate | qihe/functions.py:64-98 | the default template has 34 lines, each a comment |
| MappingFile.DefaultTemplateYieldsNothing | qihe/functions.py:64-98 | reading the default template's lines yields an empty table and two empty pattern lists |
| MappingFile.IgnoredTextYieldsNothing | qihe/qihe.py:172-178 | a file whose every line says nothing yields an empty table and no patterns, whatever its line ends. Such lines are blank lines, comments (indented or not) and lines with fewer than three fields |
| MappingFile.CommentFileYieldsNothing | qihe/qihe.py:172-178 | lines that each say nothing and hold no line break, each followed by `\n`, yield an empty table and no patterns |
| MappingFile.UnterminatedFileYieldsNothing | qihe/qihe.py:172-178 | the same for such lines joined by `\n` with no final newline |
| MappingFile.LoadComponentMapping | qihe/qihe.py:164-197 | when the file is missing the template text is created and read; otherwise the existing text is read; either way the result is the fold over that text |
| Export.MatchesAnyIsFirstHit | qihe/qihe.py:132-151 | the pattern search misses exactly when every pattern misses, and otherwise reports the outcome of the first pattern that does not miss |
| Export.ClassificationOrder | qihe/qihe.py:216-242 | the group is decided in source order: attribute flag, then exclusion, priority and mapping key. Each group's exact condition is stated both ways, including when a raising pattern stops classification |
| Export.OnLayerMembers | qihe/qihe.py:214 | a footprint is kept exactly when it is on the board and on the requested layer |
| Export.MembersAre | qihe/qihe.py:216-242 | a footprint is in a group's list exactly when it is among the layer's footprints and classifies into that group |
| Export.GroupSizes | qihe/qihe.py:214-242 | when no pattern raises, the five group sizes add up to the number of footprints on the layer |
| Export.ExcludedNeverWritten | qihe/qihe.py:218-228 | a footprint on another layer, flagged by an attribute, or matched by an exclusion pattern is never emitted |
| Export.PriorityMembership | qihe/qihe.py:254 | the `PRIO` test `mod in priority_footprints` holds exactly for layer footprints classified as priority |
| Export.EmittedFootprints | qihe/qihe.py:245-247 | the emitted footprints are, as a multiset, the priority, mapped and unmapped groups together, and a footprint is emitted exactly when it is on the layer and in one of those groups |
| Export.Rotation | qihe/qihe.py:250 | the rotation lies in [0, 360) and is congruent to the orientation plus 270 modulo 360 |
| Export.RowLayout | qihe/qihe.py:248-269 | each row has 11 cells: the reference; the mapped nozzle and stack, or `1/2` and `None` when unmapped; x and y as board units / 1000000 plus the offsets; the rotation `(orientation + 270) mod 360`, in [0, 360); `0.00`, `100`, `None`, `True`; and `<value> <reference>`, prefixed with `PRIO ` exactly for priority footprints |
| Export.GroupRowsAt | qihe/qihe.py:247-269 | a group gives one row per footprint, in group order, each row built from its footprint |
| Export.TrailerLayout | qihe/qihe.py:282-288 | the trailer is 20 rows: blank, `Puzzle`, eight pairs of `0.00` and blank, then two blanks |
| Export.ExportRows | qihe/qihe.py:204-288 | a successful export writes the header, the rows of the sorted priority, mapped and unmapped groups in that order, then the trailer |
| Export.ExportLayout | qihe/qihe.py:204-288 | a successful export has exactly 21 rows more than emitted footprints: row 0 is the header, row i+1 is built from the i-th emitted footprint with its priority flag, and the rest is the trailer |
| Export.ExportFailure | qihe/qihe.py:201-298 | the export fails exactly when some footprint on the layer hits a raising pattern, or some emitted footprint has a blank value |
| Export.EmptyLayer | qihe/qihe.py:204-288 | with no footprint on the layer the file is the header and the trailer alone |
| Export.EmitGroup | qihe/qihe.py:245-269 | the key and row loops succeed exactly when every value in the group has a first word, and then give the rows of the stably sorted group |
| Export.ClassifyFootprints | qihe/qihe.py:216-242 | the classification loop succeeds exactly when no pattern raises, and then fills each of the five lists with that group's members in layer order |
| Export.WriteGroups | qihe/qihe.py:245-288 | sorting and writing the three groups and the trailer gives the specified rows, stopping after the header and the groups already written when a key fails |
| Export.WriteTrailer | qihe/qihe.py:282-288 | the trailer loop appends exactly the 20 trailer rows |
| Export.WriteQiheFile | qihe/qihe.py:199-298 | the whole exporter writes exactly the rows of `ExportFile`, and it fails exactly when `ExportFile` does |
| Export.OutputFileNameParts | qihe/qihe.py:88-89 | the file name is the board name, `_`, the suffix and `.csv` |
| Export.OutputFileNameInjective | qihe/qihe.py:88-89 | different suffixes give different file names for the same board |
| Export.DefaultSidesDiffer | qihe/config.py:31-32 | with the default suffixes the top and bottom files never overwrite each other |

## Left out

- The wx dialog and its settings (`qihe/main.py`), and plugin registration (`qihe/__init__.py`): these are GUI plumbing.
- The JSON settings in `load_user_options` and `save_user_options` (`qihe/functions.py`): this is file I/O only.
- `log_util`, `log_error`, every `log_activity` message and the per-layer statistics: these are logging only.
- The worker thread (`run`), `generate_qihe_files` and `get_mapping_file_path`:
  - they depend on the host board (`pcbnew.GetBoard()`) and on directory handling in `os.path`;
  - the output name rule from generate_qihe_files (qihe/qihe.py:88-89) is modelled;
  - the mapping reload at line 98, whose result is never used (lines 114-116 and 125-127 pass the mapping loaded in `run` at lines 55-56), is not part of this model.
- File opening and writing:
  - a failure to create the default template, or to open or read (decode) the mapping file while iterating its lines (qihe/qihe.py:172-173), is not modelled. Such an error escapes `load_component_mapping`, is caught in `run` (qihe/qihe.py:58-59), and nothing is exported;
  - a failure to open or write the output file (qihe/qihe.py:202, caught at 297-298) is not modelled. In that case not even the header is written, but the model's file always starts with the header, and `failed` covers only the pattern search and sort-key errors;
  - `csv.writer` quoting is not modelled: a row is a sequence of cells.
- Regular expressions, including `re.IGNORECASE`: the engine is the `matches` parameter, so no property depends on its semantics.
- Floating point:
  - positions are exact reals, raw units / 1000000 plus the offset;
  - orientation is integer degrees;
  - `:.2f` formatting is left abstract: the `Millimetres` and `Degrees` cells hold the number before formatting.
- Footprint attributes: the bitmask test at qihe/qihe.py:218 is modelled as two flags, one per attribute it tests.
- `mod in priority_footprints` (qihe/qihe.py:254) compares host objects; the model compares footprint records. Classification is a function of the record, so equal records always fall in the same group, and the two readings give the same `PRIO` flag.
- Line splitting: the model cuts the text at every `\n` and every `\r`, where Python's universal newlines would yield `\r\n` as one line. The extra pieces are empty lines, and `IgnoredLineVanishes` shows they change nothing.
- MappingFile.DefaultTemplateYieldsNothing: it reads the template as its sequence of lines, not as the written text cut again at line breaks. To go from the text to those lines, `CommentFileYieldsNothing` needs each line to be free of line breaks, and that fact about the long string literals is not proved.
- MappingFile.LoadComponentMapping: it states the result as the fold over the created text, and it does not state that the result is empty, for the same reason.
