/**
 * Writing one placement file for one board side: keep the footprints on
 * that layer, put each into one of five groups (excluded by attribute,
 * excluded by pattern, priority, mapped, unmapped), sort the three emitted
 * groups by the first word of the component value and write a header, one
 * row per emitted footprint and a fixed trailer.
 */
module Export {
  import opened Wrappers
  import opened PyStr
  import opened Sorting
  import opened Mapping

  /** What the exporter reads of a board footprint. */
  datatype Footprint = Footprint(
    reference: string,
    value: string,
    layer: int,
    excludeFromPosFiles: bool,   // the "exclude from position files" attribute
    excludeFromBom: bool,        // the "exclude from bill of materials" attribute
    x: int,                      // position in board units (nanometres)
    y: int,
    orientation: int)            // degrees

  /**
   * The outcome of `re.search(pattern, value, re.IGNORECASE)`: a match, no
   * match, or an invalid pattern (the search raises).
   */
  datatype SearchResult = Found | NotFound | BadPattern

  /** The regular-expression search, as a function of pattern and value. */
  type Matcher = (string, string) -> SearchResult

  /**
   * is_excluded / is_priority: try the patterns in order and stop at the
   * first that matches (or raises).
   */
  function MatchesAny(matches: Matcher, patterns: seq<string>, value: string): SearchResult {
    if patterns == [] then NotFound
    else match matches(patterns[0], value)
      case NotFound => MatchesAny(matches, patterns[1..], value)
      case r => r
  }

  /**
   * The search reports the outcome of the first pattern that does not miss,
   * and misses exactly when every pattern misses.
   */
  lemma {:induction false} MatchesAnyIsFirstHit(matches: Matcher, patterns: seq<string>, value: string)
    ensures MatchesAny(matches, patterns, value) == NotFound
            <==> forall i | 0 <= i < |patterns| :: matches(patterns[i], value) == NotFound
    ensures forall i | 0 <= i < |patterns| ::
              (matches(patterns[i], value) != NotFound
               && forall j | 0 <= j < i :: matches(patterns[j], value) == NotFound)
              ==> MatchesAny(matches, patterns, value) == matches(patterns[i], value)
  {
    if patterns != [] {
      MatchesAnyIsFirstHit(matches, patterns[1..], value);
      var r := MatchesAny(matches, patterns, value);
      if matches(patterns[0], value) == NotFound {
        forall i | 0 <= i < |patterns| && matches(patterns[i], value) != NotFound
                   && forall j | 0 <= j < i :: matches(patterns[j], value) == NotFound
          ensures r == matches(patterns[i], value)
        {
          assert i != 0;
          assert patterns[1..][i - 1] == patterns[i];
          forall j | 0 <= j < i - 1 ensures matches(patterns[1..][j], value) == NotFound {
            assert patterns[1..][j] == patterns[j + 1];
          }
        }
        if forall i | 0 <= i < |patterns[1..]| :: matches(patterns[1..][i], value) == NotFound {
          forall i | 0 <= i < |patterns| ensures matches(patterns[i], value) == NotFound {
            if i > 0 { assert patterns[1..][i - 1] == patterns[i]; }
          }
        }
      }
    }
  }

  /** The five groups of write_qihe_file. */
  datatype Group = ExcludedByAttribute | ExcludedByPattern | Priority | Mapped | Unmapped

  /**
   * The group of one footprint; None when a pattern search raises. The
   * checks run in the source's order: attribute flags, exclusion patterns,
   * priority patterns, exact mapping key.
   */
  function Classify(f: Footprint, table: MappingTable, matches: Matcher): Option<Group> {
    if f.excludeFromPosFiles || f.excludeFromBom then Some(ExcludedByAttribute)
    else match MatchesAny(matches, table.exclude, f.value)
      case BadPattern => None
      case Found => Some(ExcludedByPattern)
      case NotFound =>
        match MatchesAny(matches, table.priority, f.value)
        case BadPattern => None
        case Found => Some(Priority)
        case NotFound => Some(if f.value in table.components then Mapped else Unmapped)
  }

  /** The footprints on `layer`, in board order. */
  function OnLayer(fs: seq<Footprint>, layer: int): seq<Footprint> {
    if fs == [] then []
    else
      var last := fs[|fs| - 1];
      OnLayer(fs[..|fs| - 1], layer) + (if last.layer == layer then [last] else [])
  }

  /** The footprints of `fs` that fall into group `g`, in order. */
  function Members(fs: seq<Footprint>, table: MappingTable, matches: Matcher, g: Group): seq<Footprint> {
    if fs == [] then []
    else
      var last := fs[|fs| - 1];
      Members(fs[..|fs| - 1], table, matches, g) + (if Classify(last, table, matches) == Some(g) then [last] else [])
  }

  /** Every footprint of `fs` can be classified without a pattern raising. */
  predicate Classified(fs: seq<Footprint>, table: MappingTable, matches: Matcher) {
    forall i | 0 <= i < |fs| :: Classify(fs[i], table, matches).Some?
  }

  /** A footprint is on the layer's list exactly when it is a board footprint on that layer. */
  lemma {:induction false} OnLayerMembers(fs: seq<Footprint>, layer: int, f: Footprint)
    ensures f in OnLayer(fs, layer) <==> f in fs && f.layer == layer
  {
    if fs != [] {
      OnLayerMembers(fs[..|fs| - 1], layer, f);
      assert fs == fs[..|fs| - 1] + [fs[|fs| - 1]];
    }
  }

  /** A footprint is in group `g` exactly when it is one of `fs` and classifies as `g`. */
  lemma {:induction false} MembersAre(fs: seq<Footprint>, table: MappingTable, matches: Matcher, g: Group, f: Footprint)
    ensures f in Members(fs, table, matches, g) <==> f in fs && Classify(f, table, matches) == Some(g)
  {
    if fs != [] {
      MembersAre(fs[..|fs| - 1], table, matches, g, f);
      assert fs == fs[..|fs| - 1] + [fs[|fs| - 1]];
    }
  }

  /**
   * When no search raises, every footprint lands in exactly one group: the
   * five group sizes add up to the number of footprints.
   */
  lemma {:induction false} GroupSizes(fs: seq<Footprint>, table: MappingTable, matches: Matcher)
    requires Classified(fs, table, matches)
    ensures |Members(fs, table, matches, ExcludedByAttribute)| + |Members(fs, table, matches, ExcludedByPattern)|
            + |Members(fs, table, matches, Priority)| + |Members(fs, table, matches, Mapped)|
            + |Members(fs, table, matches, Unmapped)| == |fs|
  {
    if fs != [] {
      var init := fs[..|fs| - 1];
      assert Classified(init, table, matches) by {
        forall i | 0 <= i < |init| ensures Classify(init[i], table, matches).Some? {
          assert init[i] == fs[i];
        }
      }
      assert Classify(fs[|fs| - 1], table, matches).Some?;
      GroupSizes(init, table, matches);
    }
  }

  /** The key get_sort_key computes: the first whitespace-separated word of the value. */
  function SortKey(f: Footprint): string {
    FirstToken(f.value).GetOr("")
  }

  /** Every footprint of the group has a first word, so computing the keys does not raise. */
  predicate AllKeyed(group: seq<Footprint>) {
    forall i | 0 <= i < |group| :: FirstToken(group[i].value).Some?
  }

  /** One cell of the CSV output. */
  datatype Cell =
    | Text(s: string)
    | Millimetres(mm: real)   // written with two decimals
    | Degrees(deg: int)       // written with two decimals

  type Row = seq<Cell>

  const Header: Row := [
    Text("Designator"), Text("NozzleNum"), Text("StackNum"), Text("Mid X"), Text("Mid Y"),
    Text("Rotation"), Text("Height"), Text("Speed"), Text("Vision"), Text("Check"), Text("Explanation")]

  /** The placement written for an unmapped component. */
  const DefaultPlacement := Placement("1/2", "None")

  /** `component_mapping.get(value, ("1/2", "None"))`. */
  function PlacementOf(table: MappingTable, value: string): Placement {
    if value in table.components then table.components[value] else DefaultPlacement
  }

  /** The machine's rotation for a board orientation: a quarter turn, reduced to [0, 360). */
  function Rotation(orientation: int): (r: int)
    ensures 0 <= r < 360
    ensures (orientation + 270 - r) % 360 == 0
  {
    (orientation + 270) % 360
  }

  /** A position in millimetres: board units divided by a million, plus the user's offset. */
  function Position(raw: int, offset: real): real {
    raw as real / 1000000.0 + offset
  }

  function Explanation(f: Footprint, isPriority: bool): string {
    (if isPriority then "PRIO " else "") + f.value + " " + f.reference
  }

  /** The row written for one footprint. */
  function FootprintRow(f: Footprint, table: MappingTable, isPriority: bool, xOffset: real, yOffset: real): Row {
    var p := PlacementOf(table, f.value);
    [Text(f.reference), Text(p.nozzle), Text(p.stack),
     Millimetres(Position(f.x, xOffset)), Millimetres(Position(f.y, yOffset)),
     Degrees(Rotation(f.orientation)),
     Text("0.00"), Text("100"), Text("None"), Text("True"),
     Text(Explanation(f, isPriority))]
  }

  /**
   * Layout of a row: eleven cells; the mapped nozzle and stack, or
   * ("1/2", "None") when the value has no mapping, whatever the group; the
   * position in millimetres shifted by the offsets; the orientation turned
   * by 270 degrees and reduced to [0, 360); the four constant columns; and the value
   * and reference, marked "PRIO " exactly for priority footprints.
   */
  lemma RowLayout(f: Footprint, table: MappingTable, isPriority: bool, xOffset: real, yOffset: real)
    ensures var r := FootprintRow(f, table, isPriority, xOffset, yOffset);
      && |r| == 11
      && r[0] == Text(f.reference)
      && (f.value in table.components ==>
            r[1] == Text(table.components[f.value].nozzle) && r[2] == Text(table.components[f.value].stack))
      && (f.value !in table.components ==> r[1] == Text("1/2") && r[2] == Text("None"))
      && r[3] == Millimetres(f.x as real / 1000000.0 + xOffset)
      && r[4] == Millimetres(f.y as real / 1000000.0 + yOffset)
      && r[5] == Degrees(Rotation(f.orientation)) && 0 <= r[5].deg < 360
      && r[6..10] == [Text("0.00"), Text("100"), Text("None"), Text("True")]
      && r[10].Text?
      && var e := r[10].s;
         if isPriority then e == "PRIO " + f.value + " " + f.reference
         else e == f.value + " " + f.reference
  {
  }

  /** The trailer's pairs of a "0.00" row and a blank row. */
  function PuzzleRows(n: nat): seq<Row> {
    if n == 0 then [] else PuzzleRows(n - 1) + [[Text("0.00")], []]
  }

  /** The rows written after the footprints (qihe/qihe.py:282-288). */
  function Trailer(): seq<Row> {
    [[], [Text("Puzzle")]] + PuzzleRows(8) + [[], []]
  }

  lemma {:induction false} PuzzleRowsLayout(n: nat)
    ensures |PuzzleRows(n)| == 2 * n
    ensures forall i | 0 <= i < n :: PuzzleRows(n)[2 * i] == [Text("0.00")] && PuzzleRows(n)[2 * i + 1] == []
  {
    if n > 0 {
      PuzzleRowsLayout(n - 1);
    }
  }

  /**
   * The trailer is always twenty rows: a blank row, "Puzzle", eight times a
   * "0.00" row followed by a blank one, and two more blank rows.
   */
  lemma TrailerLayout()
    ensures |Trailer()| == 20
    ensures Trailer()[0] == [] && Trailer()[1] == [Text("Puzzle")]
    ensures forall i | 0 <= i < 8 :: Trailer()[2 + 2 * i] == [Text("0.00")] && Trailer()[3 + 2 * i] == []
    ensures Trailer()[18] == [] && Trailer()[19] == []
  {
    PuzzleRowsLayout(8);
  }

  /** The rows of a group's footprints, in the given order. */
  function GroupRows(group: seq<Footprint>, table: MappingTable, prio: seq<Footprint>,
                     xOffset: real, yOffset: real): seq<Row> {
    if group == [] then []
    else
      var last := group[|group| - 1];
      GroupRows(group[..|group| - 1], table, prio, xOffset, yOffset)
        + [FootprintRow(last, table, last in prio, xOffset, yOffset)]
  }

  lemma {:induction false} GroupRowsConcat(a: seq<Footprint>, b: seq<Footprint>, table: MappingTable,
                                           prio: seq<Footprint>, xOffset: real, yOffset: real)
    ensures GroupRows(a + b, table, prio, xOffset, yOffset)
            == GroupRows(a, table, prio, xOffset, yOffset) + GroupRows(b, table, prio, xOffset, yOffset)
  {
    if b == [] {
      assert a + b == a;
    } else {
      assert (a + b)[..|a + b| - 1] == a + b[..|b| - 1];
      assert (a + b)[|a + b| - 1] == b[|b| - 1];
      GroupRowsConcat(a, b[..|b| - 1], table, prio, xOffset, yOffset);
    }
  }

  /** One row per footprint, row `i` for footprint `i`. */
  lemma {:induction false} GroupRowsAt(group: seq<Footprint>, table: MappingTable, prio: seq<Footprint>,
                                       xOffset: real, yOffset: real)
    ensures |GroupRows(group, table, prio, xOffset, yOffset)| == |group|
    ensures forall i | 0 <= i < |group| :: GroupRows(group, table, prio, xOffset, yOffset)[i]
              == FootprintRow(group[i], table, group[i] in prio, xOffset, yOffset)
  {
    if group != [] {
      GroupRowsAt(group[..|group| - 1], table, prio, xOffset, yOffset);
    }
  }

  /** The three emitted groups of the footprints on `layer`. */
  function PriorityGroup(fs: seq<Footprint>, layer: int, table: MappingTable, matches: Matcher): seq<Footprint> {
    Members(OnLayer(fs, layer), table, matches, Priority)
  }

  function MappedGroup(fs: seq<Footprint>, layer: int, table: MappingTable, matches: Matcher): seq<Footprint> {
    Members(OnLayer(fs, layer), table, matches, Mapped)
  }

  function UnmappedGroup(fs: seq<Footprint>, layer: int, table: MappingTable, matches: Matcher): seq<Footprint> {
    Members(OnLayer(fs, layer), table, matches, Unmapped)
  }

  /** The order in which footprints are written: each emitted group sorted by its key. */
  function Emitted(fs: seq<Footprint>, layer: int, table: MappingTable, matches: Matcher): seq<Footprint> {
    SortBy(PriorityGroup(fs, layer, table, matches), SortKey)
      + SortBy(MappedGroup(fs, layer, table, matches), SortKey)
      + SortBy(UnmappedGroup(fs, layer, table, matches), SortKey)
  }

  /** The rows that end up in the file and whether an error was caught and logged. */
  datatype Written = Written(rows: seq<Row>, failed: bool)

  /**
   * write_qihe_file (qihe/qihe.py:199-298). A pattern that raises stops the
   * classification, when only the header has been written; a group with a
   * value that has no first word stops the export before that group's rows,
   * and the trailer is not written.
   */
  function ExportFile(fs: seq<Footprint>, layer: int, xOffset: real, yOffset: real,
                      table: MappingTable, matches: Matcher): Written {
    if !Classified(OnLayer(fs, layer), table, matches) then Written([Header], true)
    else EmitRows(PriorityGroup(fs, layer, table, matches), MappedGroup(fs, layer, table, matches),
                  UnmappedGroup(fs, layer, table, matches), table, xOffset, yOffset)
  }

  /**
   * The file once the groups are known (qihe/qihe.py:204-205, 245-288): the
   * header, then each group sorted and written in turn, then the trailer;
   * a group whose keys cannot all be computed stops the export there.
   */
  function EmitRows(prio: seq<Footprint>, mapped: seq<Footprint>, unmapped: seq<Footprint>,
                    table: MappingTable, xOffset: real, yOffset: real): Written {
    var r1 := GroupRows(SortBy(prio, SortKey), table, prio, xOffset, yOffset);
    var r2 := GroupRows(SortBy(mapped, SortKey), table, prio, xOffset, yOffset);
    var r3 := GroupRows(SortBy(unmapped, SortKey), table, prio, xOffset, yOffset);
    if !AllKeyed(prio) then Written([Header], true)
    else if !AllKeyed(mapped) then Written([Header] + r1, true)
    else if !AllKeyed(unmapped) then Written([Header] + r1 + r2, true)
    else Written([Header] + r1 + r2 + r3 + Trailer(), false)
  }

  /**
   * The order of the checks: the attribute flags win over the patterns, an
   * exclusion pattern over a priority pattern, and a priority pattern over
   * the mapping table; a search that raises gives no group.
   */
  lemma ClassificationOrder(f: Footprint, table: MappingTable, matches: Matcher)
    ensures var g := Classify(f, table, matches);
      var flagged := f.excludeFromPosFiles || f.excludeFromBom;
      var ex := MatchesAny(matches, table.exclude, f.value);
      var pr := MatchesAny(matches, table.priority, f.value);
      && (g == Some(ExcludedByAttribute) <==> flagged)
      && (g == Some(ExcludedByPattern) <==> !flagged && ex == Found)
      && (g == Some(Priority) <==> !flagged && ex == NotFound && pr == Found)
      && (g == Some(Mapped) <==> !flagged && ex == NotFound && pr == NotFound && f.value in table.components)
      && (g == Some(Unmapped) <==> !flagged && ex == NotFound && pr == NotFound && f.value !in table.components)
      && (g.None? <==> !flagged && (ex == BadPattern || (ex == NotFound && pr == BadPattern)))
  {
  }

  /**
   * A footprint excluded by an attribute flag or by an exclusion pattern is
   * never written, nor is one on another layer.
   */
  lemma ExcludedNeverWritten(fs: seq<Footprint>, layer: int, table: MappingTable, matches: Matcher, f: Footprint)
    requires || f.layer != layer
             || f.excludeFromPosFiles || f.excludeFromBom
             || MatchesAny(matches, table.exclude, f.value) == Found
    ensures f !in Emitted(fs, layer, table, matches)
  {
    EmittedFootprints(fs, layer, table, matches);
  }

  /** Priority footprints are those in the priority group: the literal `mod in priority_footprints`. */
  lemma PriorityMembership(fs: seq<Footprint>, layer: int, table: MappingTable, matches: Matcher, f: Footprint)
    ensures f in PriorityGroup(fs, layer, table, matches)
            <==> f in fs && f.layer == layer && Classify(f, table, matches) == Some(Priority)
  {
    MembersAre(OnLayer(fs, layer), table, matches, Priority, f);
    OnLayerMembers(fs, layer, f);
  }

  /**
   * The written footprints are exactly the layer's priority, mapped and
   * unmapped footprints, each once: excluded footprints, by attribute or by
   * pattern, never appear.
   */
  lemma EmittedFootprints(fs: seq<Footprint>, layer: int, table: MappingTable, matches: Matcher)
    ensures multiset(Emitted(fs, layer, table, matches))
            == multiset(PriorityGroup(fs, layer, table, matches)) + multiset(MappedGroup(fs, layer, table, matches))
               + multiset(UnmappedGroup(fs, layer, table, matches))
    ensures forall f :: f in Emitted(fs, layer, table, matches) <==>
              && f in fs && f.layer == layer
              && Classify(f, table, matches) in {Some(Priority), Some(Mapped), Some(Unmapped)}
  {
    var prio, mapped, unmapped := PriorityGroup(fs, layer, table, matches),
      MappedGroup(fs, layer, table, matches), UnmappedGroup(fs, layer, table, matches);
    var e := Emitted(fs, layer, table, matches);
    assert multiset(e) == multiset(prio) + multiset(mapped) + multiset(unmapped);
    forall f
      ensures f in e <==> f in fs && f.layer == layer
                          && Classify(f, table, matches) in {Some(Priority), Some(Mapped), Some(Unmapped)}
    {
      assert f in e <==> f in multiset(e);
      OnLayerMembers(fs, layer, f);
      MembersAre(OnLayer(fs, layer), table, matches, Priority, f);
      MembersAre(OnLayer(fs, layer), table, matches, Mapped, f);
      MembersAre(OnLayer(fs, layer), table, matches, Unmapped, f);
    }
  }

  /** A file written without error: the header, the rows of the emitted footprints and the trailer. */
  lemma ExportRows(fs: seq<Footprint>, layer: int, xOffset: real, yOffset: real,
                   table: MappingTable, matches: Matcher)
    requires !ExportFile(fs, layer, xOffset, yOffset, table, matches).failed
    ensures ExportFile(fs, layer, xOffset, yOffset, table, matches).rows
            == [Header] + GroupRows(Emitted(fs, layer, table, matches), table,
                                    PriorityGroup(fs, layer, table, matches), xOffset, yOffset) + Trailer()
  {
    var prio, mapped, unmapped := PriorityGroup(fs, layer, table, matches),
      MappedGroup(fs, layer, table, matches), UnmappedGroup(fs, layer, table, matches);
    var s1, s2, s3 := SortBy(prio, SortKey), SortBy(mapped, SortKey), SortBy(unmapped, SortKey);
    var r1, r2, r3 := GroupRows(s1, table, prio, xOffset, yOffset),
      GroupRows(s2, table, prio, xOffset, yOffset), GroupRows(s3, table, prio, xOffset, yOffset);
    GroupRowsConcat(s1, s2, table, prio, xOffset, yOffset);
    GroupRowsConcat(s1 + s2, s3, table, prio, xOffset, yOffset);
    assert GroupRows(Emitted(fs, layer, table, matches), table, prio, xOffset, yOffset) == r1 + r2 + r3;
    assert ExportFile(fs, layer, xOffset, yOffset, table, matches).rows == [Header] + r1 + r2 + r3 + Trailer();
    Regroup([Header], r1, r2, r3, Trailer());
  }

  /**
   * A file written without error is the header, one row per emitted
   * footprint in emission order (marked "PRIO " exactly for priority
   * footprints) and the trailer: 21 rows more than there are footprints.
   */
  lemma ExportLayout(fs: seq<Footprint>, layer: int, xOffset: real, yOffset: real,
                     table: MappingTable, matches: Matcher)
    requires !ExportFile(fs, layer, xOffset, yOffset, table, matches).failed
    ensures var rows := ExportFile(fs, layer, xOffset, yOffset, table, matches).rows;
      var e := Emitted(fs, layer, table, matches);
      && |rows| == |e| + 21
      && rows[0] == Header
      && rows[|e| + 1..] == Trailer()
      && forall i | 0 <= i < |e| ::
           rows[i + 1] == FootprintRow(e[i], table, Classify(e[i], table, matches) == Some(Priority), xOffset, yOffset)
  {
    var prio := PriorityGroup(fs, layer, table, matches);
    var e := Emitted(fs, layer, table, matches);
    ExportRows(fs, layer, xOffset, yOffset, table, matches);
    EmittedFootprints(fs, layer, table, matches);
    forall f | f in e ensures f in prio <==> Classify(f, table, matches) == Some(Priority) {
      PriorityMembership(fs, layer, table, matches, f);
    }
    FileLayout(e, table, matches, prio, xOffset, yOffset);
  }

  lemma FileLayout(e: seq<Footprint>, table: MappingTable, matches: Matcher, prio: seq<Footprint>,
                   xOffset: real, yOffset: real)
    requires forall f | f in e :: f in prio <==> Classify(f, table, matches) == Some(Priority)
    ensures var rows := [Header] + GroupRows(e, table, prio, xOffset, yOffset) + Trailer();
      && |rows| == |e| + 21
      && rows[0] == Header
      && rows[|e| + 1..] == Trailer()
      && forall i | 0 <= i < |e| ::
           rows[i + 1] == FootprintRow(e[i], table, Classify(e[i], table, matches) == Some(Priority), xOffset, yOffset)
  {
    var body := GroupRows(e, table, prio, xOffset, yOffset);
    var rows := [Header] + body + Trailer();
    GroupRowsAt(e, table, prio, xOffset, yOffset);
    TrailerLayout();
    forall i | 0 <= i < |e|
      ensures rows[i + 1] == FootprintRow(e[i], table, Classify(e[i], table, matches) == Some(Priority), xOffset, yOffset)
    {
      assert rows[i + 1] == body[i];
    }
    assert rows[|e| + 1..] == Trailer();
  }

  lemma Regroup<T>(h: seq<T>, a: seq<T>, b: seq<T>, c: seq<T>, t: seq<T>)
    ensures h + a + b + c + t == h + (a + b + c) + t
  {
  }

  /**
   * The export fails exactly when a search on a layer footprint raises, or
   * when a footprint of an emitted group has a value without a first word.
   */
  lemma ExportFailure(fs: seq<Footprint>, layer: int, xOffset: real, yOffset: real,
                      table: MappingTable, matches: Matcher)
    ensures ExportFile(fs, layer, xOffset, yOffset, table, matches).failed <==>
      || (exists f | f in fs && f.layer == layer :: Classify(f, table, matches).None?)
      || (exists f | f in fs && f.layer == layer
            && Classify(f, table, matches) in {Some(Priority), Some(Mapped), Some(Unmapped)} :: AllSpace(f.value))
  {
    var layerFs := OnLayer(fs, layer);
    forall f ensures f in layerFs <==> f in fs && f.layer == layer {
      OnLayerMembers(fs, layer, f);
    }
    var prio, mapped, unmapped := PriorityGroup(fs, layer, table, matches),
      MappedGroup(fs, layer, table, matches), UnmappedGroup(fs, layer, table, matches);
    forall f ensures (f in prio <==> f in layerFs && Classify(f, table, matches) == Some(Priority))
      && (f in mapped <==> f in layerFs && Classify(f, table, matches) == Some(Mapped))
      && (f in unmapped <==> f in layerFs && Classify(f, table, matches) == Some(Unmapped))
    {
      MembersAre(layerFs, table, matches, Priority, f);
      MembersAre(layerFs, table, matches, Mapped, f);
      MembersAre(layerFs, table, matches, Unmapped, f);
    }
    assert Classified(layerFs, table, matches) <==> forall f | f in layerFs :: Classify(f, table, matches).Some?;
    forall f: Footprint ensures FirstToken(f.value).None? <==> AllSpace(f.value) {
      FirstTokenNone(f.value);
    }
    assert !(AllKeyed(prio) && AllKeyed(mapped) && AllKeyed(unmapped))
       <==> exists f: Footprint | f in prio + mapped + unmapped :: AllSpace(f.value);
  }

  /** A side with no footprints gets the header and the trailer only. */
  lemma EmptyLayer(fs: seq<Footprint>, layer: int, xOffset: real, yOffset: real,
                   table: MappingTable, matches: Matcher)
    requires forall i | 0 <= i < |fs| :: fs[i].layer != layer
    ensures ExportFile(fs, layer, xOffset, yOffset, table, matches) == Written([Header] + Trailer(), false)
  {
    if OnLayer(fs, layer) != [] {
      OnLayerMembers(fs, layer, OnLayer(fs, layer)[0]);
    }
    assert [Header] + [] + [] + [] + Trailer() == [Header] + Trailer();
  }

  /**
   * One pass of the emission loop (qihe/qihe.py:246-269): compute every
   * key, which raises when a value has no first word, then sort the group
   * and build its rows.
   */
  method EmitGroup(group: seq<Footprint>, table: MappingTable, prio: seq<Footprint>,
                   xOffset: real, yOffset: real) returns (rows: seq<Row>, ok: bool)
    ensures ok == AllKeyed(group)
    ensures ok ==> rows == GroupRows(SortBy(group, SortKey), table, prio, xOffset, yOffset)
  {
    var k := 0;
    while k < |group|
      invariant 0 <= k <= |group|
      invariant forall i | 0 <= i < k :: FirstToken(group[i].value).Some?
    {
      if FirstToken(group[k].value).None? {
        return [], false;
      }
      k := k + 1;
    }
    var sorted := SortBy(group, SortKey);
    rows := [];
    var j := 0;
    while j < |sorted|
      invariant 0 <= j <= |sorted|
      invariant rows == GroupRows(sorted[..j], table, prio, xOffset, yOffset)
    {
      var f := sorted[j];
      assert sorted[..j + 1][..j] == sorted[..j];
      rows := rows + [FootprintRow(f, table, f in prio, xOffset, yOffset)];
      j := j + 1;
    }
    assert sorted[..j] == sorted;
    ok := true;
  }

  /**
   * The classification loop of write_qihe_file (qihe/qihe.py:216-242): the
   * five groups, in layer order, or ok = false when a pattern search raises.
   */
  method ClassifyFootprints(filtered: seq<Footprint>, componentMapping: map<string, Placement>,
                            excludePatterns: seq<string>, priorityPatterns: seq<string>, matches: Matcher)
    returns (priorityFootprints: seq<Footprint>, mappedFootprints: seq<Footprint>,
             unmappedFootprints: seq<Footprint>, excludedByPattern: seq<Footprint>,
             excludedByAttribute: seq<Footprint>, ok: bool)
    ensures var table := MappingTable(componentMapping, excludePatterns, priorityPatterns);
      && ok == Classified(filtered, table, matches)
      && (ok ==>
            && priorityFootprints == Members(filtered, table, matches, Priority)
            && mappedFootprints == Members(filtered, table, matches, Mapped)
            && unmappedFootprints == Members(filtered, table, matches, Unmapped)
            && excludedByPattern == Members(filtered, table, matches, ExcludedByPattern)
            && excludedByAttribute == Members(filtered, table, matches, ExcludedByAttribute))
  {
    ghost var table := MappingTable(componentMapping, excludePatterns, priorityPatterns);
    priorityFootprints, mappedFootprints, unmappedFootprints := [], [], [];
    excludedByPattern, excludedByAttribute := [], [];
    var i := 0;
    while i < |filtered|
      invariant 0 <= i <= |filtered|
      invariant Classified(filtered[..i], table, matches)
      invariant excludedByAttribute == Members(filtered[..i], table, matches, ExcludedByAttribute)
      invariant excludedByPattern == Members(filtered[..i], table, matches, ExcludedByPattern)
      invariant priorityFootprints == Members(filtered[..i], table, matches, Priority)
      invariant mappedFootprints == Members(filtered[..i], table, matches, Mapped)
      invariant unmappedFootprints == Members(filtered[..i], table, matches, Unmapped)
    {
      var f := filtered[i];
      assert filtered[..i + 1][..i] == filtered[..i] && filtered[..i + 1][i] == f;
      i := i + 1;
      if f.excludeFromPosFiles || f.excludeFromBom {
        excludedByAttribute := excludedByAttribute + [f];
        continue;
      }
      var excluded := MatchesAny(matches, excludePatterns, f.value);
      if excluded == BadPattern {
        return [], [], [], [], [], false;
      }
      if excluded == Found {
        excludedByPattern := excludedByPattern + [f];
        continue;
      }
      var priority := MatchesAny(matches, priorityPatterns, f.value);
      if priority == BadPattern {
        return [], [], [], [], [], false;
      }
      if priority == Found {
        priorityFootprints := priorityFootprints + [f];
      } else if f.value in componentMapping {
        mappedFootprints := mappedFootprints + [f];
      } else {
        unmappedFootprints := unmappedFootprints + [f];
      }
    }
    assert filtered[..i] == filtered;
    ok := true;
  }

  /**
   * write_qihe_file (qihe/qihe.py:199-298) over the board's footprints and
   * the mapping read from the mapping file: the rows written and whether an
   * error was caught.
   */
  method WriteQiheFile(footprints: seq<Footprint>, layer: int, xOffset: real, yOffset: real,
                       componentMapping: map<string, Placement>, excludePatterns: seq<string>,
                       priorityPatterns: seq<string>, matches: Matcher)
    returns (rows: seq<Row>, failed: bool)
    ensures Written(rows, failed)
            == ExportFile(footprints, layer, xOffset, yOffset,
                          MappingTable(componentMapping, excludePatterns, priorityPatterns), matches)
  {
    var filtered := OnLayer(footprints, layer);
    var priorityFootprints, mappedFootprints, unmappedFootprints, excludedByPattern, excludedByAttribute, ok :=
      ClassifyFootprints(filtered, componentMapping, excludePatterns, priorityPatterns, matches);
    if !ok {
      return [Header], true;
    }
    rows, failed := WriteGroups(priorityFootprints, mappedFootprints, unmappedFootprints,
                                MappingTable(componentMapping, excludePatterns, priorityPatterns), xOffset, yOffset);
  }

  /** The header, the three groups in turn and the trailer (qihe/qihe.py:204-205, 245-288). */
  method WriteGroups(prio: seq<Footprint>, mapped: seq<Footprint>, unmapped: seq<Footprint>,
                     table: MappingTable, xOffset: real, yOffset: real)
    returns (rows: seq<Row>, failed: bool)
    ensures Written(rows, failed) == EmitRows(prio, mapped, unmapped, table, xOffset, yOffset)
  {
    rows := [Header];
    var groupRows, ok := EmitGroup(prio, table, prio, xOffset, yOffset);
    if !ok {
      return rows, true;
    }
    rows := rows + groupRows;
    groupRows, ok := EmitGroup(mapped, table, prio, xOffset, yOffset);
    if !ok {
      return rows, true;
    }
    rows := rows + groupRows;
    groupRows, ok := EmitGroup(unmapped, table, prio, xOffset, yOffset);
    if !ok {
      return rows, true;
    }
    rows := rows + groupRows;
    rows := WriteTrailer(rows);
    failed := false;
  }

  /** The trailer loop (qihe/qihe.py:282-288). */
  method WriteTrailer(rows: seq<Row>) returns (out: seq<Row>)
    ensures out == rows + Trailer()
  {
    out := rows + [[], [Text("Puzzle")]];
    ghost var before := out;
    for k := 0 to 8
      invariant out == before + PuzzleRows(k)
    {
      out := out + [[Text("0.00")], []];
    }
    out := out + [[], []];
    assert out == rows + ([[], [Text("Puzzle")]] + PuzzleRows(8) + [[], []]);
  }

  /** The output file for a board and a side: `<board>_<suffix>.csv` (qihe/qihe.py:88-89). */
  function OutputFileName(board: string, suffix: string): string {
    board + "_" + suffix + ".csv"
  }

  /** The name starts with the board name and an underscore and ends in `.csv`; the suffix sits between. */
  lemma OutputFileNameParts(board: string, suffix: string)
    ensures var n := OutputFileName(board, suffix);
      && |n| == |board| + |suffix| + 5
      && n[..|board| + 1] == board + "_"
      && n[|board| + 1..|board| + 1 + |suffix|] == suffix
      && n[|n| - 4..] == ".csv"
  {
  }

  /** Different suffixes give different files for the same board. */
  lemma OutputFileNameInjective(board: string, s1: string, s2: string)
    requires OutputFileName(board, s1) == OutputFileName(board, s2)
    ensures s1 == s2
  {
    OutputFileNameParts(board, s1);
    OutputFileNameParts(board, s2);
  }

  const DefaultTopSuffix := "TOP-COORDS"
  const DefaultBottomSuffix := "BOTTOM-COORDS"

  /** With the default suffixes the two sides never overwrite each other. */
  lemma DefaultSidesDiffer(board: string)
    ensures OutputFileName(board, DefaultTopSuffix) != OutputFileName(board, DefaultBottomSuffix)
  {
    if OutputFileName(board, DefaultTopSuffix) == OutputFileName(board, DefaultBottomSuffix) {
      OutputFileNameInjective(board, DefaultTopSuffix, DefaultBottomSuffix);
    }
  }
}
