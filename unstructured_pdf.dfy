/**
 * scripts/unstructured_pdf_to_json.py: the Specific Aims page alone. It is
 * the aims extraction of 01_unstructured_pdf_to_json.py with a different
 * STOP_HEAD ("introduction" where the other has "abstract") and an
 * AIM_SUBHEAD whose first branch also accepts the plural "aims N".
 */
module UnstructuredPdf {
  import opened Text
  import opened Patterns
  import opened Segment
  import GrantPdf

  /** The alternatives of this script's STOP_HEAD. */
  const Stops: seq<seq<string>> :=
    [["significance"], ["innovation"], ["approach"], ["research", "strategy"],
     ["project", "summary"], ["introduction"], ["bibliography"], ["references"]]

  predicate StopTitle(txt: string) { StopHead(Stops, txt) }

  /** Level 2 for AIMS_HEAD or the plural-aware AIM_SUBHEAD, level 3 otherwise. */
  predicate AimsTier(txt: string) { AimsHead(txt) || AimSubhead(txt, true) }

  function AimsConfig(): Config {
    Config(Style(IsTitle, Tiered(AimsTier), true), AimsHead, StopHeads(StopTitle), true)
  }

  /** The Markdown page, or None when there is no start heading (a warning, and no file). */
  method ExtractPdf(elements: seq<Element>, fill: string -> string) returns (md: Option<string>)
    ensures md.None? <==> forall j | 0 <= j < |elements| :: !(IsTitle(elements[j]) && AimsHead(elements[j].text))
    ensures md.Some? ==> md.value == FileText(AimsOutput(AimsConfig(), elements, fill).value)
  {
    var aims := ExtractAims(AimsConfig(), elements, fill);
    if aims.None? {
      return None;
    }
    md := Some(FileText(aims.value));
  }

  function AimsSection(elements: seq<Element>, s: nat): seq<Element>
    requires s < |elements|
  {
    Section(AimsConfig(), elements, s, elements[s].page)
  }

  /**
   * Aims line pairs: each element of the section is non-blank, on the start
   * heading's page when that is known, and a heading is only ever rendered at
   * level 2 or 3.
   */
  lemma AimsLines(elements: seq<Element>, fill: string -> string, k: nat)
    requires FirstStart(AimsConfig(), elements, 0).Some?
    requires k < |AimsSection(elements, FirstStart(AimsConfig(), elements, 0).value)|
    ensures var s := FirstStart(AimsConfig(), elements, 0).value;
      var sec := AimsSection(elements, s);
      var out := AimsOutput(AimsConfig(), elements, fill).value;
      var t := Strip(sec[k].text);
      |out| == 2 * |sec| && t != []
      && (elements[s].page.Some? ==> sec[k].page == elements[s].page)
      && (IsTitle(sec[k]) && AimsTier(t) ==> out[2 * k] == "## " + t)
      && (IsTitle(sec[k]) && !AimsTier(t) ==> out[2 * k] == "### " + t)
      && (!IsTitle(sec[k]) ==> out[2 * k] == fill(t))
      && out[2 * k + 1] == ""
  {
    var s := FirstStart(AimsConfig(), elements, 0).value;
    SectionShape(AimsConfig(), elements, s, elements[s].page);
    var sec := AimsSection(elements, s);
    RenderAllAt(AimsConfig().style, sec, fill, k);
    assert AimsOutput(AimsConfig(), elements, fill) == Some(RenderAll(AimsConfig().style, sec, fill));
    if IsTitle(sec[k]) {
      TieredLine(AimsConfig().style, sec[k], fill);
    }
  }

  /**
   * When STOP_HEAD also matches the start heading, the loop breaks on that
   * heading and the page is written with no lines, as a single newline.
   */
  lemma StopStartEmpty(elements: seq<Element>, fill: string -> string)
    requires FirstStart(AimsConfig(), elements, 0).Some?
    requires StopTitle(Strip(elements[FirstStart(AimsConfig(), elements, 0).value].text))
    ensures AimsOutput(AimsConfig(), elements, fill) == Some([])
    ensures FileText(AimsOutput(AimsConfig(), elements, fill).value) == "\n"
  {
    var s := FirstStart(AimsConfig(), elements, 0).value;
    AimsHeadNotBlank(elements[s].text);
    StartStops(AimsConfig(), elements, s, elements[s].page);
    assert FileText([]) == "\n";
  }

  /** Such a start heading exists here too: AIMS_HEAD and STOP_HEAD both match "Approach to Specific Aims". */
  lemma StopStartExample()
    ensures AimsHead("Approach to Specific Aims") && StopTitle("Approach to Specific Aims")
  {
    AimsHeadApproachTo();
    StopApproachTo();
  }

  lemma StopApproachTo()
    ensures StopTitle("Approach to Specific Aims")
  {
    ApproachAt0("Approach to Specific Aims");
    assert Stops[2] == ["approach"];
  }

  lemma StopSignificance()
    ensures StopTitle("Significance")
  {
    var s := "Significance";
    assert WordAt(s, 0, "significance");
    assert StopPhraseAt0(s, Stops[0]);
  }

  lemma ApproachesAt(k: nat)
    requires k < |Stops|
    ensures !StopPhraseAt0("Approaches", Stops[k])
  {
    var s := "Approaches";
    if k == 2 {
      assert WordAt(s, 0, "approach");
      assert !Boundary(s, 8);
    } else {
      NotPhraseAt0(s, Stops[k], 0);
    }
  }

  lemma NoStopApproaches()
    ensures !StopTitle("Approaches")
  {
    forall k | 0 <= k < |Stops| ensures !StopPhraseAt0("Approaches", Stops[k]) {
      ApproachesAt(k);
    }
  }

  lemma StopIntroduction()
    ensures StopTitle("Introduction")
  {
    var s := "Introduction";
    assert WordAt(s, 0, "introduction");
    assert StopPhraseAt0(s, Stops[5]);
  }

  /** This script's STOP_HEAD stops at "Introduction" and not at "Abstract"; like the other, it needs the word boundary. */
  lemma StopTitleExamples()
    ensures StopTitle("Significance") && StopTitle("Introduction")
    ensures !StopTitle("Abstract") && !StopTitle("Approaches")
  {
    StopSignificance();
    StopIntroduction();
    AbstractStopsOnlyThere();
    NoStopApproaches();
  }


  /** A heading "Abstract" ends the aims page of the other script but not of this one. */
  lemma AbstractStopsOnlyThere()
    ensures GrantPdf.StopTitle("Abstract")
    ensures !StopTitle("Abstract")
  {
    var s := "Abstract";
    assert WordAt(s, 0, "abstract");
    assert PhraseEnd(s, 0, ["abstract"]) == Some(8);
    assert StopPhraseAt0(s, GrantPdf.Stops[5]);
    forall k | 0 <= k < |Stops| ensures !StopPhraseAt0(s, Stops[k]) {
      var w := Stops[k][0];
      if |w| <= |s| {
        assert k in {2, 3, 4};
        assert Fold(s[1]) == 'b' != w[1];
        assert !WordAt(s, 0, w);
      }
    }
  }

  /** The heading "Aims 2" is a level-2 subheading here and a level-3 heading in the other script. */
  lemma PluralSubheadOnlyHere()
    ensures AimsTier("Aims 2")
    ensures !GrantPdf.AimsTier("Aims 2")
  {
    AimsTwoPlural();
    forall i: nat | i <= 6 ensures !AimsHeadAt("Aims 2", i) && !SubheadAt("Aims 2", i, false) {
      AimsTwoSingular(i);
    }
  }

  lemma AimsTwoPlural()
    ensures SubheadAt("Aims 2", 0, true)
  {
    var s := "Aims 2";
    PluralAt(s);
  }

  /** "Aims 2", character by character: `aim`, the plural `s`, a space and the number. */
  lemma PluralAt(s: string)
    requires |s| == 6 && s[0] == 'A' && s[1] == 'i' && s[2] == 'm' && s[3] == 's' && s[4] == ' ' && s[5] == '2'
    ensures SubheadAt(s, 0, true)
  {
    assert WordAt(s, 0, "aim");
    assert PhraseEnd(s, 0, ["aim"]) == Some(3);
    assert Run(s, 5, Space) == 0;
    assert Run(s, 4, Space) == 1;
    assert Run(s, 6, Digit) == 0;
    assert Run(s, 5, Digit) == 1;
    assert NumberFollows(s, 4);
  }

  lemma AimsTwoSingular(i: nat)
    requires i <= 6
    ensures !AimsHeadAt("Aims 2", i) && !SubheadAt("Aims 2", i, false)
  {
    var s := "Aims 2";
    assert !WordAt(s, i, "specific");
    if i == 0 {
      AimsTwoNoNumberAt3();
    } else if i <= 3 {
      AimsTwoNoAim(i);
    }
  }

  lemma AimsTwoNoAim(i: nat)
    requires 1 <= i <= 3
    ensures PhraseEnd("Aims 2", i, ["aim"]).None?
  {
    assert Fold("Aims 2"[i + 0]) != "aim"[0];
  }

  lemma AimsTwoNoNumberAt3()
    ensures !NumberFollows("Aims 2", 3)
  {
    assert Run("Aims 2", 3, Space) == 0 && Run("Aims 2", 3, Digit) == 0;
  }
}
