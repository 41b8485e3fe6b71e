/** The mapping file written when none exists (qihe/functions.py:61-98). */
module MappingTemplate {
  import opened PyStr

  /** The number of lines of the default template. */
  const TemplateLength := 34

  /** Line `i` of the default template: every line is a comment. */
  function TemplateLine(i: nat): (line: string)
    requires i < TemplateLength
    ensures line != [] && line[0] == '#'
  {
    "#" + TemplateComment(i)
  }

  /** What follows the `#` on line `i` of the template. */
  function TemplateComment(i: nat): string
    requires i < TemplateLength
  {
    match i
    case 0 => "#####################################"
    case 1 => " Component Mapping for QIHE PnP machine"
    case 2 => ""
    case 3 => " For more information on how to edit this file, visit:"
    case 4 => " https://github.com/jpkh/ki_qihe"
    case 5 => ""
    case 6 => " Contact: [Use GitHub issues for questions and suggestions]"
    case 7 => ""
    case 8 => " This file defines mappings for component placement and special instructions."
    case 9 => " Each line follows one of these formats:"
    case 10 => ""
    case 11 => " Component Mapping Line:"
    case 12 => "   1 or 2, Feeder ID, Component Name(s)"
    case 13 => "   - '1 or 2' specifies the nozzle number."
    case 14 => "   - 'Feeder ID' is the feeder location, formatted as Lxx or Bxx"
    case 15 => "      (e.g., L1, B12)."
    case 16 => "   - 'Component Name(s)' are the names of components, separated by colons (:)."
    case 17 => "     These names should match the component values in the PCB design."
    case 18 => "   Example: 1, L1, 0n1:100nF:100nf:0.1uF:0.1uf"
    case 19 => ""
    case 20 => " Exclude Line:"
    case 21 => "   E, , Regex Pattern(s)"
    case 22 => "   - 'E' indicates this line specifies components to exclude."
    case 23 => "   - 'Regex Pattern(s)' are patterns to match components to be excluded,"
    case 24 => "      separated by colons (:)."
    case 25 => "   Example: E, , NC:TP"
    case 26 => ""
    case 27 => " Priority Line:"
    case 28 => "   P, , Regex Pattern(s)"
    case 29 => "   - 'P' indicates this line specifies priority components."
    case 30 => "   - 'Regex Pattern(s)' are patterns to match priority components,"
    case 31 => "      separated by colons (:)."
    case 32 => "   Example: P, , FIDUCIAL:TESTPOINT"
    case _ => ""
  }

  /** The template's lines, first to last. */
  function DefaultTemplate(): (lines: seq<string>)
    ensures |lines| == TemplateLength
    ensures forall i | 0 <= i < |lines| :: lines[i] == TemplateLine(i)
  {
    seq(TemplateLength, i requires 0 <= i < TemplateLength => TemplateLine(i))
  }

  /** The template as written to disk: each line followed by a newline. */
  function DefaultMappingText(): string {
    Join(DefaultTemplate() + [""], '\n')
  }
}
