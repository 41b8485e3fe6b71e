/**
 * Opening the mapping file: when it does not exist the default template is
 * written first and then read like any other mapping file.
 */
module MappingFile {
  import opened Wrappers
  import opened PyStr
  import opened MappingTemplate
  import opened Mapping

  /**
   * A file made of lines that say nothing (blank lines, comments, indented
   * or not, and lines with fewer than three fields), each followed by a
   * newline, yields an empty table and no patterns.
   */
  lemma CommentFileYieldsNothing(ls: seq<string>)
    requires forall i | 0 <= i < |ls| :: Ignored(ls[i])
    requires forall i | 0 <= i < |ls| :: NoneOf(ls[i], {'\n', '\r'})
    ensures ParseText(Join(ls + [""], '\n')) == EmptyTable
  {
    var ls' := ls + [""];
    WithLastLine(ls);
    SplitJoin(ls', '\n', {'\n', '\r'});
    AllIgnored(ls');
  }

  /**
   * Whatever its line ends (`\n`, `\r\n`, `\r`, with or without a final
   * one), a text whose every line says nothing yields nothing.
   */
  lemma IgnoredTextYieldsNothing(text: string)
    requires forall i | 0 <= i < |Lines(text)| :: Ignored(Lines(text)[i])
    ensures ParseText(text) == EmptyTable
  {
    AllIgnored(Lines(text));
  }

  /** Lines that say nothing, joined by newlines with no final one, yield nothing. */
  lemma UnterminatedFileYieldsNothing(ls: seq<string>)
    requires |ls| >= 1
    requires forall i | 0 <= i < |ls| :: Ignored(ls[i])
    requires forall i | 0 <= i < |ls| :: NoneOf(ls[i], {'\n', '\r'})
    ensures ParseText(Join(ls, '\n')) == EmptyTable
  {
    SplitJoin(ls, '\n', {'\n', '\r'});
    AllIgnored(ls);
  }

  /** The empty piece after the final newline says nothing either. */
  lemma WithLastLine(ls: seq<string>)
    requires forall i | 0 <= i < |ls| :: Ignored(ls[i])
    requires forall i | 0 <= i < |ls| :: NoneOf(ls[i], {'\n', '\r'})
    ensures forall i | 0 <= i < |ls + [""]| :: Ignored((ls + [""])[i])
    ensures forall i | 0 <= i < |ls + [""]| :: NoneOf((ls + [""])[i], {'\n', '\r'})
  {
    var ls' := ls + [""];
    forall i | 0 <= i < |ls'| ensures NoneOf(ls'[i], {'\n', '\r'}) && Ignored(ls'[i]) {
      if i < |ls| { assert ls'[i] == ls[i]; } else { assert ls'[i] == ""; }
    }
  }

  /** Every line of the default template is a comment, so reading its lines yields nothing. */
  lemma DefaultTemplateYieldsNothing()
    ensures ParseLines(DefaultTemplate()) == EmptyTable
  {
    var ls := DefaultTemplate();
    forall i | 0 <= i < |ls| ensures Ignored(ls[i]) {
      StripKeepsFirst(ls[i]);
    }
    AllIgnored(ls);
  }

  /** Lines that each say nothing together say nothing. */
  lemma {:induction false} AllIgnored(ls: seq<string>)
    requires forall i | 0 <= i < |ls| :: Ignored(ls[i])
    ensures ParseLines(ls) == EmptyTable
  {
    if ls != [] {
      AllIgnored(ls[..|ls| - 1]);
    }
  }

  /**
   * load_component_mapping (qihe/qihe.py:164-197). `existing` is the
   * content of the mapping file, None when it does not exist; `created` is
   * the content written to create it in that case.
   */
  method LoadComponentMapping(existing: Option<string>)
    returns (mapping: map<string, Placement>, excludePatterns: seq<string>,
             priorityPatterns: seq<string>, created: Option<string>)
    ensures created == if existing.None? then Some(DefaultMappingText()) else None
    ensures MappingTable(mapping, excludePatterns, priorityPatterns)
            == ParseText(existing.GetOr(DefaultMappingText()))
  {
    created := None;
    var text: string;
    if existing.None? {
      text := DefaultMappingText();
      created := Some(text);
    } else {
      text := existing.value;
    }
    mapping, excludePatterns, priorityPatterns := ReadMapping(text);
  }
}
