/**
 * scripts/01_unstructured_pdf_to_json.py: the whole-grant Markdown page and the
 * Specific Aims page, both rendered from the parsed element list. The parser
 * call, the JSON and YAML dumps, the checksum and the clock are outside this
 * model; `fill` stands for textwrap.fill(txt, 100).
 */
module GrantPdf {
  import opened Text
  import opened Patterns
  import opened Segment

  /** The alternatives of this script's STOP_HEAD. */
  const Stops: seq<seq<string>> :=
    [["significance"], ["innovation"], ["approach"], ["research", "strategy"],
     ["project", "summary"], ["abstract"], ["bibliography"], ["references"]]

  predicate StopTitle(txt: string) { StopHead(Stops, txt) }

  /** A heading is rendered at level 2 when AIMS_HEAD or AIM_SUBHEAD finds it, else at 3. */
  predicate AimsTier(txt: string) { AimsHead(txt) || AimSubhead(txt, false) }

  /** Whole-grant rendering: is_title headings at min(4, depth or 1), blanks skipped. */
  function DocStyle(): Style { Style(IsTitle, ByDepth, true) }

  /** The aims page: start at an is_title AIMS_HEAD, stop at STOP_HEAD or a page change. */
  function AimsConfig(): Config {
    Config(Style(IsTitle, Tiered(AimsTier), true), AimsHead, StopHeads(StopTitle), true)
  }

  /** The two Markdown files: the whole grant, and the aims page when a start heading exists. */
  datatype Pages = Pages(wholeMd: string, aimsMd: Option<string>)

  function AimsFile(aims: Option<seq<string>>): (r: Option<string>)
    ensures r.None? <==> aims.None?
  {
    match aims
    case None => None
    case Some(lines) => Some(FileText(lines))
  }

  method ExtractPdf(elements: seq<Element>, fill: string -> string) returns (out: Pages)
    ensures out.wholeMd == FileText(RenderAll(DocStyle(), Kept(DocStyle(), elements), fill))
    ensures out.aimsMd == AimsFile(AimsOutput(AimsConfig(), elements, fill))
  {
    var md := Render(DocStyle(), elements, fill);
    var aims := ExtractAims(AimsConfig(), elements, fill);
    out := Pages(FileText(md), AimsFile(aims));
  }

  /**
   * Whole-grant line pairs: the k-th non-blank element, in element order,
   * gives entry 2k (a heading at its clamped depth, or the wrapped paragraph)
   * and the blank entry 2k+1.
   */
  lemma WholeDocLines(elements: seq<Element>, fill: string -> string, k: nat)
    requires k < |Kept(DocStyle(), elements)|
    ensures var md := RenderAll(DocStyle(), Kept(DocStyle(), elements), fill);
      var x := Kept(DocStyle(), elements)[k];
      var t := Strip(x.text);
      |md| == 2 * |Kept(DocStyle(), elements)| && x in elements && t != []
      && (IsTitle(x) ==> md[2 * k] == Repeat('#', DepthLevel(x.depth)) + " " + t)
      && (!IsTitle(x) ==> md[2 * k] == fill(t))
      && md[2 * k + 1] == ""
  {
    var kept := Kept(DocStyle(), elements);
    KeptMembers(DocStyle(), elements);
    assert kept[k] in kept;
    RenderAllAt(DocStyle(), kept, fill, k);
  }

  /** The aims section of a document that has a start heading at s. */
  function AimsSection(elements: seq<Element>, s: nat): seq<Element>
    requires s < |elements|
  {
    Section(AimsConfig(), elements, s, elements[s].page)
  }

  /**
   * Aims line pairs: each element of the section is non-blank, on the start
   * heading's page when that is known, and renders as "## " or "### " plus its
   * stripped text when it is a heading, or as the wrapped paragraph.
   */
  lemma AimsLines(elements: seq<Element>, fill: string -> string, k: nat)
    requires FirstStart(AimsConfig(), elements, 0).Some?
    requires k < |AimsSection(elements, FirstStart(AimsConfig(), elements, 0).value)|
    ensures var s := FirstStart(AimsConfig(), elements, 0).value;
      var sec := AimsSection(elements, s);
      var out := AimsOutput(AimsConfig(), elements, fill).value;
      var t := Strip(sec[k].text);
      |out| == 2 * |sec| && t != []
      && (elements[s].page.Some? ==> sec[k].page == elements[s].page)
      && (IsTitle(sec[k]) && AimsTier(t) ==> out[2 * k] == "## " + t)
      && (IsTitle(sec[k]) && !AimsTier(t) ==> out[2 * k] == "### " + t)
      && (!IsTitle(sec[k]) ==> out[2 * k] == fill(t))
      && out[2 * k + 1] == ""
  {
    var s := FirstStart(AimsConfig(), elements, 0).value;
    SectionShape(AimsConfig(), elements, s, elements[s].page);
    var sec := AimsSection(elements, s);
    RenderAllAt(AimsConfig().style, sec, fill, k);
    assert AimsOutput(AimsConfig(), elements, fill) == Some(RenderAll(AimsConfig().style, sec, fill));
    if IsTitle(sec[k]) {
      TieredLine(AimsConfig().style, sec[k], fill);
    }
  }

  /**
   * Unless the start heading itself matches STOP_HEAD, the aims page opens
   * with "## " and the start heading's stripped text: that heading is never
   * blank and is on its own page.
   */
  lemma AimsFirstLine(elements: seq<Element>, fill: string -> string)
    requires FirstStart(AimsConfig(), elements, 0).Some?
    requires !StopTitle(Strip(elements[FirstStart(AimsConfig(), elements, 0).value].text))
    ensures var s := FirstStart(AimsConfig(), elements, 0).value;
      var out := AimsOutput(AimsConfig(), elements, fill).value;
      out != [] && out[0] == "## " + Strip(elements[s].text)
  {
    var s := FirstStart(AimsConfig(), elements, 0).value;
    var e := elements[s];
    AimsHeadNotBlank(e.text);
    AimsHeadStrip(e.text);
    assert StepAt(AimsConfig(), e, false, e.page) == Take;
    SectionFirst(AimsConfig(), elements, s, e.page);
    var sec := AimsSection(elements, s);
    RenderAllAt(AimsConfig().style, sec, fill, 0);
    assert AimsOutput(AimsConfig(), elements, fill) == Some(RenderAll(AimsConfig().style, sec, fill));
    TieredLine(AimsConfig().style, e, fill);
  }

  /**
   * The other half of AimsFirstLine: when STOP_HEAD also matches the start
   * heading, the loop breaks on that heading and the aims page is written
   * with no lines, as a single newline.
   */
  lemma StopStartEmpty(elements: seq<Element>, fill: string -> string)
    requires FirstStart(AimsConfig(), elements, 0).Some?
    requires StopTitle(Strip(elements[FirstStart(AimsConfig(), elements, 0).value].text))
    ensures AimsOutput(AimsConfig(), elements, fill) == Some([])
    ensures AimsFile(AimsOutput(AimsConfig(), elements, fill)) == Some("\n")
  {
    var s := FirstStart(AimsConfig(), elements, 0).value;
    AimsHeadNotBlank(elements[s].text);
    StartStops(AimsConfig(), elements, s, elements[s].page);
    assert FileText([]) == "\n";
  }

  /** Such a start heading exists: AIMS_HEAD finds "Approach to Specific Aims" and STOP_HEAD matches it. */
  lemma StopStartExample()
    ensures AimsHead("Approach to Specific Aims") && StopTitle("Approach to Specific Aims")
  {
    AimsHeadApproachTo();
    StopApproachTo();
  }

  lemma StopApproachTo()
    ensures StopTitle("Approach to Specific Aims")
  {
    ApproachAt0("Approach to Specific Aims");
    assert Stops[2] == ["approach"];
  }

  lemma StopSignificance()
    ensures StopTitle("Significance")
  {
    var s := "Significance";
    assert WordAt(s, 0, "significance");
    assert StopPhraseAt0(s, Stops[0]);
  }

  lemma ApproachesAt(k: nat)
    requires k < |Stops|
    ensures !StopPhraseAt0("Approaches", Stops[k])
  {
    var s := "Approaches";
    if k == 2 {
      assert WordAt(s, 0, "approach");
      assert !Boundary(s, 8);
    } else if k == 5 {
      NotPhraseAt0(s, Stops[k], 1);
    } else {
      NotPhraseAt0(s, Stops[k], 0);
    }
  }

  lemma NoStopApproaches()
    ensures !StopTitle("Approaches")
  {
    forall k | 0 <= k < |Stops| ensures !StopPhraseAt0("Approaches", Stops[k]) {
      ApproachesAt(k);
    }
  }

  lemma StopResearchStrategy()
    ensures StopTitle("RESEARCH  STRATEGY")
  {
    var s := "RESEARCH  STRATEGY";
    ResearchStrategyWords();
    RunExactly(s, 8, 2, Space);
    assert PhraseEnd(s, 10, ["strategy"]) == Some(18);
    assert StopPhraseAt0(s, Stops[3]);
  }

  lemma ResearchStrategyWords()
    ensures WordAt("RESEARCH  STRATEGY", 0, "research") && WordAt("RESEARCH  STRATEGY", 10, "strategy")
  {
  }

  lemma StopApproachColon()
    ensures StopTitle("Approach: overview")
  {
    var s := "Approach: overview";
    assert WordAt(s, 0, "approach");
    assert StopPhraseAt0(s, Stops[2]);
  }

  lemma AimsAt(k: nat)
    requires k < |Stops|
    ensures !StopPhraseAt0("Specific Aims", Stops[k])
  {
    if k == 0 {
      NotPhraseAt0("Specific Aims", Stops[k], 1);
    } else {
      NotPhraseAt0("Specific Aims", Stops[k], 0);
    }
  }

  lemma NoStopAims()
    ensures !StopTitle("Specific Aims")
  {
    forall k | 0 <= k < |Stops| ensures !StopPhraseAt0("Specific Aims", Stops[k]) {
      AimsAt(k);
    }
  }

  /**
   * STOP_HEAD is anchored at the start, in any case, with any whitespace
   * inside "research strategy", and needs a word boundary after the word.
   */
  lemma StopTitleExamples()
    ensures StopTitle("Significance") && StopTitle("RESEARCH  STRATEGY") && StopTitle("Approach: overview")
    ensures !StopTitle("Approaches") && !StopTitle("Specific Aims")
  {
    StopSignificance();
    StopResearchStrategy();
    StopApproachColon();
    NoStopApproaches();
    NoStopAims();
  }
}
