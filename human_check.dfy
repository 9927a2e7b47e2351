/**
 * scripts/human_check_aims.py: the Specific Aims section of an element list
 * (loaded from JSON), for human review. The heading test is "the type starts
 * with Title"; every element from the start heading up to the next Title that
 * does not itself match the aims pattern is kept, blank or not, with no page
 * cutoff, and every Title is promoted to level 1.
 */
module HumanCheck {
  import opened Text
  import opened Patterns
  import opened Segment

  function HumanConfig(): Config {
    Config(Style(IsTitleCategory, AllTop, false), AimsHead, NextOtherTitle, false)
  }

  /** The script either writes the Markdown file or exits with an error. */
  datatype Outcome = Written(md: string) | NoHeading

  /** A Title whose raw text the aims pattern does not find: it closes the section once something was emitted. */
  predicate OtherTitle(e: Element) {
    IsTitleCategory(e) && !AimsHead(e.text)
  }

  method CheckAims(elts: seq<Element>, fill: string -> string) returns (r: Outcome)
    ensures r.NoHeading? <==> forall j | 0 <= j < |elts| :: !(IsTitleCategory(elts[j]) && AimsHead(elts[j].text))
    ensures r.Written? ==> r.md == FileText(AimsOutput(HumanConfig(), elts, fill).value)
  {
    var aims := ExtractAims(HumanConfig(), elts, fill);
    if aims.None? {
      return NoHeading;
    }
    r := Written(FileText(aims.value));
  }

  function HumanSection(elts: seq<Element>, s: nat): seq<Element>
    requires s < |elts|
  {
    Section(HumanConfig(), elts, s, elts[s].page)
  }

  /**
   * The section is elts[s..e] for the first e after the start heading s that
   * holds a Title the pattern does not find, or e == |elts|: the start
   * heading is always included, later matching Titles are kept, and the
   * closing Title is left out.
   */
  lemma SectionBounds(elts: seq<Element>) returns (e: nat)
    requires FirstStart(HumanConfig(), elts, 0).Some?
    ensures var s := FirstStart(HumanConfig(), elts, 0).value;
      s < e <= |elts| && HumanSection(elts, s) == elts[s..e]
      && (e < |elts| ==> OtherTitle(elts[e]))
      && forall k | s < k < e :: !OtherTitle(elts[k])
  {
    var s := FirstStart(HumanConfig(), elts, 0).value;
    e := SectionRun(HumanConfig(), elts, s, elts[s].page);
    HumanStep(elts[s], false);
    forall k | s < k < e ensures !OtherTitle(elts[k]) {
      HumanStep(elts[k], true);
    }
    if e < |elts| {
      HumanStep(elts[e], e > s);
    }
  }

  /** Under this configuration the scan halts exactly at an OtherTitle once something was emitted. */
  lemma HumanStep(x: Element, emitted: bool)
    ensures StepAt(HumanConfig(), x, emitted, x.page) == (if emitted && OtherTitle(x) then Halt else Take)
  {
  }

  /**
   * Output line pairs: a Title renders as "# " and its stripped text, any
   * other element as the wrapped stripped text, each followed by "".
   */
  lemma OutputLines(elts: seq<Element>, fill: string -> string, k: nat)
    requires FirstStart(HumanConfig(), elts, 0).Some?
    requires k < |HumanSection(elts, FirstStart(HumanConfig(), elts, 0).value)|
    ensures var s := FirstStart(HumanConfig(), elts, 0).value;
      var sec := HumanSection(elts, s);
      var out := AimsOutput(HumanConfig(), elts, fill).value;
      |out| == 2 * |sec|
      && (IsTitleCategory(sec[k]) ==> out[2 * k] == "# " + Strip(sec[k].text))
      && (!IsTitleCategory(sec[k]) ==> out[2 * k] == fill(Strip(sec[k].text)))
      && out[2 * k + 1] == ""
  {
    var s := FirstStart(HumanConfig(), elts, 0).value;
    var sec := HumanSection(elts, s);
    RenderAllAt(HumanConfig().style, sec, fill, k);
    assert AimsOutput(HumanConfig(), elts, fill) == Some(RenderAll(HumanConfig().style, sec, fill));
    if IsTitleCategory(sec[k]) {
      TopLine(HumanConfig().style, sec[k], fill);
    }
  }

  /** The start heading is always emitted first, as "# " and its stripped text. */
  lemma StartFirst(elts: seq<Element>, fill: string -> string)
    requires FirstStart(HumanConfig(), elts, 0).Some?
    ensures var s := FirstStart(HumanConfig(), elts, 0).value;
      var out := AimsOutput(HumanConfig(), elts, fill).value;
      out != [] && out[0] == "# " + Strip(elts[s].text)
  {
    var s := FirstStart(HumanConfig(), elts, 0).value;
    assert StepAt(HumanConfig(), elts[s], false, elts[s].page) == Take;
    SectionFirst(HumanConfig(), elts, s, elts[s].page);
    OutputLines(elts, fill, 0);
  }
}
