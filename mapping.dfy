/**
 * The component mapping file: a line-oriented text the user edits, read at
 * the start of every export into a table from component value to
 * (nozzle, feeder) and two ordered lists of regular-expression patterns.
 *
 * Grammar of one line, after surrounding whitespace is stripped: a blank
 * line or one starting with `#` is a comment; otherwise the line is cut at
 * commas and needs at least three fields `tag, param, values` (later fields
 * are ignored). Tag `E` appends the `:`-separated values to the exclusion
 * patterns, tag `P` to the priority patterns; any other tag is a nozzle and
 * maps every `:`-separated value, stripped, to (tag, param).
 */
module Mapping {
  import opened Wrappers
  import opened PyStr

  /** Where a component is placed: the nozzle number and the feeder (stack). */
  datatype Placement = Placement(nozzle: string, stack: string)

  /** What the mapping file yields. */
  datatype MappingTable = MappingTable(
    components: map<string, Placement>,
    exclude: seq<string>,
    priority: seq<string>)

  const EmptyTable: MappingTable := MappingTable(map[], [], [])

  /** What one line of the file says. */
  datatype Directive =
    | Skip
    | ExcludeLine(patterns: seq<string>)
    | PriorityLine(patterns: seq<string>)
    | MapLine(names: seq<string>, placement: Placement)

  /** The comma-separated fields of a line once it is stripped. */
  function Fields(line: string): (f: seq<string>)
    ensures |f| >= 1 && Join(f, ',') == Strip(line)
  {
    JoinSplit(Strip(line), ',');
    Split(Strip(line), ',')
  }

  /** A line that contributes nothing: blank, a comment, or fewer than three fields. */
  predicate Ignored(line: string) {
    Strip(line) == [] || Strip(line)[0] == '#' || |Fields(line)| < 3
  }

  /** Reads one line of the mapping file (qihe/qihe.py:174-190). */
  function ReadDirective(line: string): (d: Directive)
    ensures d.Skip? <==> Ignored(line)
    ensures !d.Skip? ==> |Fields(line)| >= 3
    ensures d.ExcludeLine? <==> !Ignored(line) && Strip(Fields(line)[0]) == "E"
    ensures d.PriorityLine? <==> !Ignored(line) && Strip(Fields(line)[0]) == "P"
    ensures d.ExcludeLine? || d.PriorityLine? ==>
              |d.patterns| >= 1 && Join(d.patterns, ':') == Strip(Fields(line)[2])
    ensures d.MapLine? ==>
              && |d.names| >= 1 && Join(d.names, ':') == Strip(Fields(line)[2])
              && d.placement == Placement(Strip(Fields(line)[0]), Strip(Fields(line)[1]))
  {
    var l := Strip(line);
    if l == [] || l[0] == '#' then Skip
    else
      var parts := Split(l, ',');
      if |parts| < 3 then Skip
      else
        var prefix, param1, param2 := Strip(parts[0]), Strip(parts[1]), Strip(parts[2]);
        JoinSplit(param2, ':');
        if prefix == "E" then ExcludeLine(Split(param2, ':'))
        else if prefix == "P" then PriorityLine(Split(param2, ':'))
        else MapLine(Split(param2, ':'), Placement(prefix, param1))
  }

  /**
   * The values of a directive are exactly the `:`-separated pieces of its
   * third field: none of them holds a `:`, and joined with `:` they give
   * the field back.
   */
  lemma DirectivePieces(line: string)
    ensures var d := ReadDirective(line);
      && (d.ExcludeLine? || d.PriorityLine? ==> forall i | 0 <= i < |d.patterns| :: ':' !in d.patterns[i])
      && (d.MapLine? ==> forall i | 0 <= i < |d.names| :: ':' !in d.names[i])
  {
    if !Ignored(line) {
      SplitPieces(Strip(Split(Strip(line), ',')[2]), ':');
    }
  }

  /** A line is read as its stripped form: surrounding whitespace never matters. */
  lemma ReadDirectiveStrips(line: string)
    ensures ReadDirective(Strip(line)) == ReadDirective(line)
  {
    StripIdempotent(line);
  }

  /** The keys a mapping line assigns: its names, each stripped. */
  function NameKeys(names: seq<string>): set<string> {
    if names == [] then {} else NameKeys(names[..|names| - 1]) + {Strip(names[|names| - 1])}
  }

  /**
   * `mapping[name.strip()] = placement` for each name in turn: every
   * stripped name now maps to `placement`, every other key is unchanged.
   */
  function Assign(m: map<string, Placement>, names: seq<string>, p: Placement): (r: map<string, Placement>)
    ensures forall k :: k in r <==> k in m || k in NameKeys(names)
    ensures forall k | k in NameKeys(names) :: r[k] == p
    ensures forall k | k in m && k !in NameKeys(names) :: r[k] == m[k]
  {
    if names == [] then m
    else
      var init, key := names[..|names| - 1], Strip(names[|names| - 1]);
      var r0 := Assign(m, init, p);
      assert NameKeys(names) == NameKeys(init) + {key};
      assert forall k :: k in r0[key := p] <==> k in r0 || k == key;
      r0[key := p]
  }

  lemma AssignStep(m: map<string, Placement>, names: seq<string>, j: nat, p: Placement)
    requires j < |names|
    ensures Assign(m, names[..j + 1], p) == Assign(m, names[..j], p)[Strip(names[j]) := p]
  {
    assert names[..j + 1][..j] == names[..j];
  }

  /** The effect of one line on the structures built so far. */
  function ParseLine(t: MappingTable, line: string): MappingTable {
    match ReadDirective(line)
    case Skip => t
    case ExcludeLine(ps) => t.(exclude := t.exclude + ps)
    case PriorityLine(ps) => t.(priority := t.priority + ps)
    case MapLine(names, p) => t.(components := Assign(t.components, names, p))
  }

  /** The structures built from `lines`, read first to last. */
  function ParseLines(lines: seq<string>): MappingTable {
    if lines == [] then EmptyTable
    else ParseLine(ParseLines(lines[..|lines| - 1]), lines[|lines| - 1])
  }

  /**
   * The lines `for line in file` presents, up to blank lines: the text cut
   * at every newline and carriage return.
   */
  function Lines(text: string): seq<string> {
    SplitAny(text, {'\n', '\r'})
  }

  function ParseText(text: string): MappingTable {
    ParseLines(Lines(text))
  }


  /** Structures from one part of a file followed by those of the next. */
  function Combine(t: MappingTable, u: MappingTable): MappingTable {
    MappingTable(t.components + u.components, t.exclude + u.exclude, t.priority + u.priority)
  }

  lemma {:induction false} AssignUnion(m1: map<string, Placement>, m2: map<string, Placement>, names: seq<string>, p: Placement)
    ensures Assign(m1 + m2, names, p) == m1 + Assign(m2, names, p)
  {
    if names != [] {
      var init, key := names[..|names| - 1], Strip(names[|names| - 1]);
      AssignUnion(m1, m2, init, p);
      UpdateUnion(m1, Assign(m2, init, p), key, p);
    }
  }

  lemma UpdateUnion(a: map<string, Placement>, b: map<string, Placement>, key: string, p: Placement)
    ensures (a + b)[key := p] == a + b[key := p]
  {
    var l, r := (a + b)[key := p], a + b[key := p];
    assert forall k :: k in l <==> k in r;
    assert forall k | k in l :: l[k] == r[k];
  }

  lemma ParseLineCombine(t: MappingTable, u: MappingTable, line: string)
    ensures ParseLine(Combine(t, u), line) == Combine(t, ParseLine(u, line))
  {
    match ReadDirective(line)
    case Skip =>
    case ExcludeLine(ps) =>
      assert t.exclude + u.exclude + ps == t.exclude + (u.exclude + ps);
    case PriorityLine(ps) =>
      assert t.priority + u.priority + ps == t.priority + (u.priority + ps);
    case MapLine(names, p) =>
      AssignUnion(t.components, u.components, names, p);
  }

  /**
   * Reading a file in two parts: the table of the second part overrides that
   * of the first, and each pattern list is the first part's followed by the
   * second's.
   */
  lemma {:induction false} ParseLinesConcat(a: seq<string>, b: seq<string>)
    ensures ParseLines(a + b) == Combine(ParseLines(a), ParseLines(b))
  {
    if b == [] {
      assert a + b == a;
      var t := ParseLines(a);
      assert t.components + map[] == t.components;
      assert t.exclude + [] == t.exclude && t.priority + [] == t.priority;
    } else {
      var init := b[..|b| - 1];
      assert (a + b)[..|a + b| - 1] == a + init;
      assert (a + b)[|a + b| - 1] == b[|b| - 1];
      ParseLinesConcat(a, init);
      ParseLineCombine(ParseLines(a), ParseLines(init), b[|b| - 1]);
    }
  }

  /** A blank line, a comment or a line with fewer than three fields changes nothing, wherever it stands. */
  lemma IgnoredLineVanishes(a: seq<string>, line: string, b: seq<string>)
    requires Ignored(line)
    ensures ParseLines(a + [line] + b) == ParseLines(a + b)
  {
    ParseLinesConcat(a + [line], b);
    ParseLinesConcat(a, [line]);
    ParseLinesConcat(a, b);
    assert [line][..0] == [];
    var t := ParseLines(a);
    assert t.components + map[] == t.components;
    assert t.exclude + [] == t.exclude && t.priority + [] == t.priority;
  }

  /** The placement the last line naming `k` gives it, if some line names it. */
  function LastDefinition(lines: seq<string>, k: string): Option<Placement> {
    if lines == [] then None
    else match ReadDirective(lines[|lines| - 1])
      case MapLine(names, p) =>
        if k in NameKeys(names) then Some(p) else LastDefinition(lines[..|lines| - 1], k)
      case _ => LastDefinition(lines[..|lines| - 1], k)
  }

  /**
   * Last definition wins: a value is in the table exactly when some mapping
   * line names it, and it maps to what the last such line says.
   */
  lemma {:induction false} LastDefinitionWins(lines: seq<string>, k: string)
    ensures k in ParseLines(lines).components <==> LastDefinition(lines, k).Some?
    ensures k in ParseLines(lines).components ==>
              ParseLines(lines).components[k] == LastDefinition(lines, k).value
  {
    if lines != [] {
      LastDefinitionWins(lines[..|lines| - 1], k);
    }
  }

  /** Pattern lines keep their patterns, in file order, and leave the table alone. */
  lemma PatternLineAppends(a: seq<string>, line: string)
    requires ReadDirective(line).ExcludeLine? || ReadDirective(line).PriorityLine?
    ensures ParseLines(a + [line]).components == ParseLines(a).components
    ensures ReadDirective(line).ExcludeLine? ==>
              && ParseLines(a + [line]).exclude == ParseLines(a).exclude + ReadDirective(line).patterns
              && ParseLines(a + [line]).priority == ParseLines(a).priority
    ensures ReadDirective(line).PriorityLine? ==>
              && ParseLines(a + [line]).priority == ParseLines(a).priority + ReadDirective(line).patterns
              && ParseLines(a + [line]).exclude == ParseLines(a).exclude
  {
    assert (a + [line])[..|a + [line]| - 1] == a;
    assert (a + [line])[|a + [line]| - 1] == line;
    assert ParseLines(a + [line]) == ParseLine(ParseLines(a), line);
  }

  /**
   * Everything past the third comma is ignored, whitespace before that
   * comma included.
   */
  lemma ExtraFieldsIgnored(line: string, extra: string)
    requires |Fields(line)| >= 3
    ensures ReadDirective(line + "," + extra) == ReadDirective(line)
  {
    var s, t := line + "," + extra, "," + StripRight(extra);
    StripWithExtra(line, extra);
    assert StripLeft(line) + "," + StripRight(extra) == StripLeft(line) + t;
    LeadingFields(line, t);
    var f, g := Fields(line), Split(Strip(s), ',');
    assert Strip(g[0]) == Strip(f[0]) && Strip(g[1]) == Strip(f[1]) && Strip(g[2]) == Strip(f[2]);
  }

  /** Stripping a line with a comma and more text appended keeps the left-stripped line whole. */
  lemma StripWithExtra(line: string, extra: string)
    requires StripLeft(line) != []
    ensures Strip(line + "," + extra) == StripLeft(line) + "," + StripRight(extra)
  {
    var head := StripLeft(line) + ",";
    StripLeftWithExtra(line, extra);
    assert head[|head| - 1] == ',';
    StripRightConcat(head, extra);
  }

  lemma StripLeftWithExtra(line: string, extra: string)
    requires StripLeft(line) != []
    ensures StripLeft(line + "," + extra) == StripLeft(line) + "," + extra
  {
    var tail := "," + extra;
    StripLeftConcat(line, tail);
    assert line + "," + extra == line + tail;
    assert StripLeft(line) + tail == StripLeft(line) + "," + extra;
  }

  /**
   * Behind the leading whitespace, a line followed by `t`, which starts with a comma, has the
   * line's first fields, up to whitespace at the end of its last field.
   */
  lemma LeadingFields(line: string, t: string)
    requires |Fields(line)| >= 3 && t != [] && t[0] == ','
    ensures var g := Split(StripLeft(line) + t, ',');
      && |g| >= 3
      && (forall i | 0 <= i < 3 :: Strip(g[i]) == Strip(Fields(line)[i]))
      && (StripLeft(line) + t)[0] == Strip(line)[0]
  {
    var l, core, f := StripLeft(line), Strip(line), Fields(line);
    assert core != [];
    StripRightIsPrefix(l);
    StripRightRemovesSpace(l);
    var w := l[|core|..];
    assert l == core + w;
    assert NoneOf(w, {','});
    SplitPrefix(l, t, {','});
    SplitAppend(core, w, {','});
    var g := Split(l + t, ',');
    forall i | 0 <= i < 3 ensures Strip(g[i]) == Strip(f[i]) {
      if i == |f| - 1 { StripTrailingSpace(f[i], w); }
    }
  }

  lemma {:induction false} StripRightConcat(s: string, t: string)
    requires s != [] && !IsSpace(s[|s| - 1])
    ensures StripRight(s + t) == s + StripRight(t)
  {
    if t == [] {
      assert s + t == s;
    } else if IsSpace(t[|t| - 1]) {
      StripRightConcat(s, t[..|t| - 1]);
      assert (s + t)[..|s + t| - 1] == s + t[..|t| - 1];
    } else {
    }
  }

  /**
   * The reading loop of load_component_mapping (qihe/qihe.py:174-197) over
   * the content `text` of the mapping file.
   */
  method ReadMapping(text: string)
    returns (mapping: map<string, Placement>, excludePatterns: seq<string>,
             priorityPatterns: seq<string>)
    ensures MappingTable(mapping, excludePatterns, priorityPatterns) == ParseText(text)
  {
    var lines := Lines(text);
    mapping, excludePatterns, priorityPatterns := map[], [], [];
    var i := 0;
    while i < |lines|
      invariant 0 <= i <= |lines|
      invariant MappingTable(mapping, excludePatterns, priorityPatterns) == ParseLines(lines[..i])
    {
      var raw := lines[i];
      assert lines[..i + 1][..i] == lines[..i] && lines[..i + 1][i] == raw;
      ghost var t := ParseLines(lines[..i]);
      i := i + 1;
      var line := Strip(raw);
      if line == [] || line[0] == '#' {
        assert ReadDirective(raw) == Skip;
        continue;
      }
      var parts := Split(line, ',');
      if |parts| >= 3 {
        var prefix, param1, param2 := Strip(parts[0]), Strip(parts[1]), Strip(parts[2]);
        if prefix == "E" {
          assert ReadDirective(raw) == ExcludeLine(Split(param2, ':'));
          excludePatterns := excludePatterns + Split(param2, ':');
        } else if prefix == "P" {
          assert ReadDirective(raw) == PriorityLine(Split(param2, ':'));
          priorityPatterns := priorityPatterns + Split(param2, ':');
        } else {
          var names := Split(param2, ':');
          assert ReadDirective(raw) == MapLine(names, Placement(prefix, param1));
          ghost var before := mapping;
          var j := 0;
          while j < |names|
            invariant 0 <= j <= |names|
            invariant mapping == Assign(before, names[..j], Placement(prefix, param1))
          {
            AssignStep(before, names, j, Placement(prefix, param1));
            mapping := mapping[Strip(names[j]) := Placement(prefix, param1)];
            j := j + 1;
          }
          assert names[..j] == names;
        }
      } else {
        assert ReadDirective(raw) == Skip;
      }
    }
    assert lines[..i] == lines;
  }
}
