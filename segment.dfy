/**
 * The section-segmentation routine shared by the PDF scripts: locate the first
 * "Specific Aims" heading, consume elements from there until a stop condition
 * fires, and render each consumed element as a Markdown line followed by a
 * blank spacer line. The scripts differ only in their Config:
 *   - which category marks a heading (lower-cased "title"/"header", or a
 *     category that starts with "Title"),
 *   - the heading-level policy (section depth, 2/3 tiers, or all level 1),
 *   - whether blank elements are skipped,
 *   - the stop rule (a STOP_HEAD alternation, or "the next Title that is not
 *     an aims heading, once something was emitted"),
 *   - whether leaving the start heading's page ends the section.
 * Whole-document rendering is the same rendering with no start and no stop.
 * textwrap.fill(txt, 100) is the parameter `fill`.
 */
module Segment {
  import opened Text
  import opened Patterns

  /** One parsed element; a text of None is represented by "". */
  datatype Element = Element(text: string, category: string, page: Option<int>, depth: Option<int>)

  /**
   * How a script renders elements: which elements are headings, how a heading's
   * level is chosen (from the section depth; level 2 when the stripped text
   * satisfies `top` and 3 otherwise; always 1), and whether blank elements are
   * skipped.
   */
  datatype Levels = ByDepth | Tiered(top: string -> bool) | AllTop
  datatype Style = Style(heading: Element -> bool, levels: Levels, skipBlank: bool)

  /**
   * How a section ends: at a heading whose stripped text satisfies `stop`, or
   * at the next heading that is not itself a start heading once something has
   * been emitted.
   */
  datatype StopRule = StopHeads(stop: string -> bool) | NextOtherTitle

  /** A script's segmentation: `start` is the start-heading search on the raw text. */
  datatype Config = Config(style: Style, start: string -> bool, stop: StopRule, pageCutoff: bool)

  function AsciiLower(s: string): (r: string)
    ensures |r| == |s|
  {
    if s == [] then [] else [Fold(s[0])] + AsciiLower(s[1..])
  }

  /** is_title: the lower-cased category is "title" or "header". */
  predicate IsTitle(e: Element) {
    AsciiLower(e.category) in {"title", "header"}
  }

  /** The human-check heading test: the category starts with "Title". */
  predicate IsTitleCategory(e: Element) {
    StartsWith(e.category, "Title")
  }

  /** Elements whose stripped text is empty are skipped when the style says so. */
  predicate Skipped(style: Style, e: Element) {
    style.skipBlank && Strip(e.text) == []
  }

  /** min(4, section_depth or 1): an absent, None or 0 depth counts as 1. */
  function DepthLevel(depth: Option<int>): (n: int)
    ensures n <= 4
    ensures depth.None? || depth == Some(0) ==> n == 1
    ensures depth.Some? && depth.value >= 0 ==> 1 <= n
    ensures depth.Some? && 1 <= depth.value <= 4 ==> n == depth.value
  {
    Min(4, if depth.None? || depth.value == 0 then 1 else depth.value)
  }

  function Level(levels: Levels, e: Element, txt: string): int {
    match levels
    case ByDepth => DepthLevel(e.depth)
    case Tiered(top) => if top(txt) then 2 else 3
    case AllTop => 1
  }

  /** The content line of one element: a heading line or the wrapped paragraph. */
  function Line(style: Style, e: Element, fill: string -> string): string {
    var txt := Strip(e.text);
    if style.heading(e) then Repeat('#', Level(style.levels, e, txt)) + " " + txt
    else fill(txt)
  }

  /** A tiered heading reads "## " or "### " and then its stripped text. */
  lemma TieredLine(style: Style, e: Element, fill: string -> string)
    requires style.heading(e) && style.levels.Tiered?
    ensures var t := Strip(e.text);
      Line(style, e, fill) == (if style.levels.top(t) then "## " else "### ") + t
  {
    var t := Strip(e.text);
    assert Repeat('#', 2) == "##" && Repeat('#', 3) == "###";
    assert ("##" + " ") + t == "## " + t;
    assert ("###" + " ") + t == "### " + t;
  }

  /** With every heading at level 1, a heading reads "# " and then its stripped text. */
  lemma TopLine(style: Style, e: Element, fill: string -> string)
    requires style.heading(e) && style.levels.AllTop?
    ensures Line(style, e, fill) == "# " + Strip(e.text)
  {
    assert Repeat('#', 1) == "#";
  }

  /** AsciiLower lowers character by character. */
  lemma {:induction false} LowerAt(s: string)
    ensures forall k | 0 <= k < |s| :: AsciiLower(s)[k] == Fold(s[k])
  {
    if s != [] {
      LowerAt(s[1..]);
      assert forall k | 1 <= k < |s| :: AsciiLower(s)[k] == AsciiLower(s[1..])[k - 1];
    }
  }

  lemma TitleIsTitle(e: Element)
    requires e.category == "Title"
    ensures IsTitle(e)
  {
    LowerAt(e.category);
    assert AsciiLower(e.category) == "title";
  }

  lemma HeaderIsTitle(e: Element)
    requires e.category == "HEADER"
    ensures IsTitle(e)
  {
    LowerAt(e.category);
    assert AsciiLower(e.category) == "header";
  }

  lemma TitlesNotTitle(e: Element)
    requires e.category == "Titles"
    ensures !IsTitle(e)
  {
    LowerAt(e.category);
    assert AsciiLower(e.category)[0] == 't';
  }

  /** is_title compares the whole lower-cased category: any case of "title" or "header", and nothing longer. */
  lemma IsTitleExamples(text: string, page: Option<int>, depth: Option<int>)
    ensures IsTitle(Element(text, "Title", page, depth)) && IsTitle(Element(text, "HEADER", page, depth))
    ensures !IsTitle(Element(text, "NarrativeText", page, depth)) && !IsTitle(Element(text, "Titles", page, depth))
  {
    TitleIsTitle(Element(text, "Title", page, depth));
    HeaderIsTitle(Element(text, "HEADER", page, depth));
    TitlesNotTitle(Element(text, "Titles", page, depth));
  }

  /** The human-check test is case-sensitive and looks only at the start of the type. */
  lemma IsTitleCategoryExamples(text: string, page: Option<int>, depth: Option<int>)
    ensures IsTitleCategory(Element(text, "Title", page, depth)) && IsTitleCategory(Element(text, "TitleBlock", page, depth))
    ensures !IsTitleCategory(Element(text, "title", page, depth)) && !IsTitleCategory(Element(text, "Header", page, depth))
  {
    assert "TitleBlock"[..5] == "Title";
    assert "title"[..5][0] != "Title"[0];
    assert "Header"[..5][0] != "Title"[0];
  }

  /**
   * A heading line is a run of at most four '#', a space and the stripped
   * text; any other element's line is the wrapped stripped text.
   */
  lemma LineShape(style: Style, e: Element, fill: string -> string)
    ensures !style.heading(e) ==> Line(style, e, fill) == fill(Strip(e.text))
    ensures style.heading(e) ==>
      var t := Strip(e.text);
      var r := Line(style, e, fill);
      |t| + 1 <= |r| <= |t| + 5 && EndsWith(r, " " + t)
      && forall k | 0 <= k < |r| - |t| - 1 :: r[k] == '#'
  {
    if style.heading(e) {
      var t := Strip(e.text);
      var h := Repeat('#', Level(style.levels, e, t));
      assert Line(style, e, fill) == h + " " + t;
      assert (h + " " + t)[|h|..] == " " + t;
    }
  }

  /** The elements that are not skipped, in order. */
  function Kept(style: Style, es: seq<Element>): seq<Element> {
    if es == [] then []
    else
      var last := es[|es| - 1];
      Kept(style, es[..|es| - 1]) + (if Skipped(style, last) then [] else [last])
  }

  /** Each element contributes its line and then "". */
  function RenderAll(style: Style, es: seq<Element>, fill: string -> string): (r: seq<string>)
    ensures |r| == 2 * |es|
  {
    if es == [] then []
    else RenderAll(style, es[..|es| - 1], fill) + [Line(style, es[|es| - 1], fill), ""]
  }

  lemma SliceSnoc(es: seq<Element>, a: nat, b: nat)
    requires a <= b < |es|
    ensures es[a..b + 1] == es[a..b] + [es[b]]
  {
  }

  lemma KeptSnoc(style: Style, es: seq<Element>, e: Element)
    ensures Kept(style, es + [e]) == Kept(style, es) + (if Skipped(style, e) then [] else [e])
  {
    assert (es + [e])[..|es|] == es;
  }

  lemma RenderSnoc(style: Style, es: seq<Element>, e: Element, fill: string -> string)
    ensures RenderAll(style, es + [e], fill) == RenderAll(style, es, fill) + [Line(style, e, fill), ""]
  {
    assert (es + [e])[..|es|] == es;
  }

  /** Whole-document rendering: every element that is kept, in order. */
  method Render(style: Style, elems: seq<Element>, fill: string -> string) returns (lines: seq<string>)
    ensures lines == RenderAll(style, Kept(style, elems), fill)
  {
    lines := [];
    for i := 0 to |elems|
      invariant lines == RenderAll(style, Kept(style, elems[..i]), fill)
    {
      var e := elems[i];
      SliceSnoc(elems, 0, i);
      assert elems[..i + 1] == elems[0..i + 1] && elems[..i] == elems[0..i];
      KeptSnoc(style, elems[..i], e);
      if style.skipBlank && Strip(e.text) == [] {
        assert Kept(style, elems[..i + 1]) == Kept(style, elems[..i]);
        continue;
      }
      assert Kept(style, elems[..i + 1]) == Kept(style, elems[..i]) + [e];
      RenderSnoc(style, Kept(style, elems[..i]), e, fill);
      lines := lines + [Line(style, e, fill), ""];
    }
    assert elems[..|elems|] == elems;
  }

  // ---------------------------------------------------------------------
  // Locating the start heading

  predicate IsStart(cfg: Config, e: Element) {
    cfg.style.heading(e) && cfg.start(e.text)
  }

  /** The first index at or after `from` holding a start heading. */
  function FirstStart(cfg: Config, elems: seq<Element>, from: nat): (r: Option<nat>)
    requires from <= |elems|
    ensures r.None? <==> forall j | from <= j < |elems| :: !IsStart(cfg, elems[j])
    ensures r.Some? ==> from <= r.value < |elems| && IsStart(cfg, elems[r.value])
    ensures r.Some? ==> forall j | from <= j < r.value :: !IsStart(cfg, elems[j])
    decreases |elems| - from
  {
    if from == |elems| then None
    else if IsStart(cfg, elems[from]) then Some(from)
    else FirstStart(cfg, elems, from + 1)
  }

  method FindStart(cfg: Config, elems: seq<Element>) returns (start: Option<nat>)
    ensures start == FirstStart(cfg, elems, 0)
  {
    for i := 0 to |elems|
      invariant FirstStart(cfg, elems, 0) == FirstStart(cfg, elems, i)
    {
      if IsStart(cfg, elems[i]) {
        return Some(i);
      }
    }
    return None;
  }

  // ---------------------------------------------------------------------
  // Consuming the section

  /** The stop-heading test, given whether anything has been emitted yet. */
  predicate StopsAt(cfg: Config, e: Element, emitted: bool) {
    match cfg.stop
    case StopHeads(stop) => cfg.style.heading(e) && stop(Strip(e.text))
    case NextOtherTitle => cfg.style.heading(e) && !cfg.start(e.text) && emitted
  }

  /** The page test: a known start page that this element is not on. */
  predicate PageBreak(cfg: Config, e: Element, page: Option<int>) {
    cfg.pageCutoff && page.Some? && e.page != page
  }

  datatype Step = Pass | Halt | Take

  /**
   * What the section scan does with element e: pass over a skipped element,
   * stop before a stop heading or an element on another page, take any other.
   */
  function StepAt(cfg: Config, e: Element, emitted: bool, page: Option<int>): Step {
    if Skipped(cfg.style, e) then Pass
    else if StopsAt(cfg, e, emitted) then Halt
    else if PageBreak(cfg, e, page) then Halt
    else Take
  }

  /** The state of the section scan: the elements taken so far, and whether it has stopped. */
  datatype Scan = Scan(taken: seq<Element>, stopped: bool)

  /** The scan after visiting elems[start..i]; once stopped it stays stopped. */
  function ScanTo(cfg: Config, elems: seq<Element>, start: nat, i: nat, page: Option<int>): Scan
    requires start <= i <= |elems|
    decreases i - start
  {
    if i == start then Scan([], false)
    else
      var st := ScanTo(cfg, elems, start, i - 1, page);
      if st.stopped then st
      else
        match StepAt(cfg, elems[i - 1], st.taken != [], page)
        case Pass => st
        case Halt => Scan(st.taken, true)
        case Take => Scan(st.taken + [elems[i - 1]], false)
  }

  /** The elements rendered for a section that starts at index start. */
  function Section(cfg: Config, elems: seq<Element>, start: nat, page: Option<int>): seq<Element>
    requires start <= |elems|
  {
    ScanTo(cfg, elems, start, |elems|, page).taken
  }

  lemma {:induction false} StoppedStays(cfg: Config, elems: seq<Element>, start: nat, i: nat, j: nat, page: Option<int>)
    requires start <= i <= j <= |elems| && ScanTo(cfg, elems, start, i, page).stopped
    ensures ScanTo(cfg, elems, start, j, page) == ScanTo(cfg, elems, start, i, page)
    decreases j - i
  {
    if j > i {
      StoppedStays(cfg, elems, start, i, j - 1, page);
    }
  }

  /**
   * The stop test comes before anything is taken, the start heading included:
   * a non-blank start heading that is also a stop heading ends its own
   * section, which is then empty.
   */
  lemma StartStops(cfg: Config, elems: seq<Element>, start: nat, page: Option<int>)
    requires start < |elems| && !Skipped(cfg.style, elems[start]) && StopsAt(cfg, elems[start], false)
    ensures Section(cfg, elems, start, page) == []
  {
    assert ScanTo(cfg, elems, start, start + 1, page) == Scan([], true);
    StoppedStays(cfg, elems, start, start + 1, |elems|, page);
  }

  /** ExtractSection's loop state: elems[start..i] scanned without a stop, their lines emitted. */
  ghost predicate Scanned(cfg: Config, elems: seq<Element>, start: nat, page: Option<int>, fill: string -> string,
                          i: nat, lines: seq<string>)
  {
    start <= i <= |elems| && !ScanTo(cfg, elems, start, i, page).stopped
    && lines == RenderAll(cfg.style, ScanTo(cfg, elems, start, i, page).taken, fill)
  }

  /** What one iteration of ExtractSection's loop preserves or concludes. */
  lemma Advance(cfg: Config, elems: seq<Element>, start: nat, page: Option<int>, fill: string -> string,
                i: nat, lines: seq<string>)
    requires i < |elems| && Scanned(cfg, elems, start, page, fill, i, lines)
    ensures Skipped(cfg.style, elems[i]) ==> Scanned(cfg, elems, start, page, fill, i + 1, lines)
    ensures !Skipped(cfg.style, elems[i]) && (StopsAt(cfg, elems[i], lines != []) || PageBreak(cfg, elems[i], page)) ==>
      lines == RenderAll(cfg.style, Section(cfg, elems, start, page), fill)
    ensures !Skipped(cfg.style, elems[i]) && !StopsAt(cfg, elems[i], lines != []) && !PageBreak(cfg, elems[i], page) ==>
      Scanned(cfg, elems, start, page, fill, i + 1, lines + [Line(cfg.style, elems[i], fill), ""])
  {
    var st := ScanTo(cfg, elems, start, i, page);
    assert (lines != []) == (st.taken != []);
    match StepAt(cfg, elems[i], st.taken != [], page)
    case Pass =>
    case Halt =>
      assert ScanTo(cfg, elems, start, i + 1, page) == Scan(st.taken, true);
      StoppedStays(cfg, elems, start, i + 1, |elems|, page);
      assert Section(cfg, elems, start, page) == st.taken;
    case Take =>
      assert ScanTo(cfg, elems, start, i + 1, page) == Scan(st.taken + [elems[i]], false);
      RenderSnoc(cfg.style, st.taken, elems[i], fill);
  }

  method ExtractSection(cfg: Config, elems: seq<Element>, start: nat, page: Option<int>, fill: string -> string)
    returns (lines: seq<string>)
    requires start <= |elems|
    ensures lines == RenderAll(cfg.style, Section(cfg, elems, start, page), fill)
  {
    lines := [];
    for i := start to |elems|
      invariant Scanned(cfg, elems, start, page, fill, i, lines)
    {
      var e := elems[i];
      Advance(cfg, elems, start, page, fill, i, lines);
      if Skipped(cfg.style, e) {
        continue;
      }
      if StopsAt(cfg, e, lines != []) {
        return;
      }
      if PageBreak(cfg, e, page) {
        return;
      }
      lines := lines + [Line(cfg.style, e, fill), ""];
    }
  }

  // ---------------------------------------------------------------------
  // What the rendered lines and the consumed section are

  /** Entry 2k is element k's line and entry 2k+1 its blank spacer. */
  lemma {:induction false} RenderAllAt(style: Style, es: seq<Element>, fill: string -> string, k: nat)
    requires k < |es|
    ensures RenderAll(style, es, fill)[2 * k] == Line(style, es[k], fill)
    ensures RenderAll(style, es, fill)[2 * k + 1] == ""
  {
    if k < |es| - 1 {
      RenderAllAt(style, es[..|es| - 1], fill, k);
    }
  }

  /** The kept elements are exactly the elements that are not skipped. */
  lemma {:induction false} KeptMembers(style: Style, es: seq<Element>)
    ensures forall x :: x in Kept(style, es) <==> x in es && !Skipped(style, x)
  {
    if es != [] {
      KeptMembers(style, es[..|es| - 1]);
      assert es == es[..|es| - 1] + [es[|es| - 1]];
    }
  }

  /** Without blank skipping nothing is dropped. */
  lemma {:induction false} KeptAll(style: Style, es: seq<Element>)
    requires !style.skipBlank
    ensures Kept(style, es) == es
  {
    if es != [] {
      KeptAll(style, es[..|es| - 1]);
    }
  }

  /** A first element that is not skipped is kept first. */
  lemma {:induction false} KeptHead(style: Style, es: seq<Element>)
    requires es != [] && !Skipped(style, es[0])
    ensures Kept(style, es) != [] && Kept(style, es)[0] == es[0]
  {
    if |es| > 1 {
      KeptHead(style, es[..|es| - 1]);
    }
  }

  /** The scan stopped at element m having taken the kept elements before it. */
  ghost predicate HaltsAt(cfg: Config, elems: seq<Element>, start: nat, m: nat, page: Option<int>, taken: seq<Element>) {
    start <= m < |elems| && taken == Kept(cfg.style, elems[start..m])
    && StepAt(cfg, elems[m], taken != [], page) == Halt
  }

  /** While the scan has not stopped it has taken the kept elements of elems[start..i]. */
  lemma {:induction false} ScanRunning(cfg: Config, elems: seq<Element>, start: nat, i: nat, page: Option<int>)
    requires start <= i <= |elems| && !ScanTo(cfg, elems, start, i, page).stopped
    ensures ScanTo(cfg, elems, start, i, page).taken == Kept(cfg.style, elems[start..i])
    decreases i - start
  {
    if i > start {
      ScanStep(cfg, elems, start, i, page);
      ScanRunning(cfg, elems, start, i - 1, page);
      SliceSnoc(elems, start, i - 1);
      KeptSnoc(cfg.style, elems[start..i - 1], elems[i - 1]);
    }
  }

  /** A running scan's last step: it was running before and took the element unless it is skipped. */
  lemma ScanStep(cfg: Config, elems: seq<Element>, start: nat, i: nat, page: Option<int>)
    requires start < i <= |elems| && !ScanTo(cfg, elems, start, i, page).stopped
    ensures !ScanTo(cfg, elems, start, i - 1, page).stopped
    ensures ScanTo(cfg, elems, start, i, page).taken
         == ScanTo(cfg, elems, start, i - 1, page).taken + (if Skipped(cfg.style, elems[i - 1]) then [] else [elems[i - 1]])
  {
    var st := ScanTo(cfg, elems, start, i - 1, page);
    if Skipped(cfg.style, elems[i - 1]) {
      assert ScanTo(cfg, elems, start, i, page) == st;
    } else {
      assert ScanTo(cfg, elems, start, i, page) == Scan(st.taken + [elems[i - 1]], false);
    }
  }

  /** A scan that stopped did so at some element m, having taken the kept elements before it. */
  lemma {:induction false} ScanHalted(cfg: Config, elems: seq<Element>, start: nat, i: nat, page: Option<int>)
    requires start <= i <= |elems| && ScanTo(cfg, elems, start, i, page).stopped
    ensures exists m: nat :: HaltsAt(cfg, elems, start, m, page, ScanTo(cfg, elems, start, i, page).taken)
    decreases i - start
  {
    var st := ScanTo(cfg, elems, start, i - 1, page);
    if st.stopped {
      ScanHalted(cfg, elems, start, i - 1, page);
    } else {
      ScanRunning(cfg, elems, start, i - 1, page);
      assert HaltsAt(cfg, elems, start, i - 1, page, st.taken);
    }
  }

  /** Each taken element, at its position, is one the scan takes. */
  ghost predicate Clean(cfg: Config, t: seq<Element>, page: Option<int>) {
    forall k | 0 <= k < |t| :: StepAt(cfg, t[k], k > 0, page) == Take
  }

  lemma {:induction false} ScanClean(cfg: Config, elems: seq<Element>, start: nat, i: nat, page: Option<int>)
    requires start <= i <= |elems|
    ensures Clean(cfg, ScanTo(cfg, elems, start, i, page).taken, page)
    decreases i - start
  {
    if i > start {
      ScanClean(cfg, elems, start, i - 1, page);
      var st := ScanTo(cfg, elems, start, i - 1, page);
      if !st.stopped && StepAt(cfg, elems[i - 1], st.taken != [], page) == Take {
        var t := st.taken + [elems[i - 1]];
        assert t[|st.taken|] == elems[i - 1];
        assert forall k | 0 <= k < |st.taken| :: t[k] == st.taken[k];
      }
    }
  }

  /**
   * The section is the kept elements of elems[start..end): end is |elems|,
   * or the first element at which the scan halts (a stop heading or a page
   * change), which is itself left out.
   */
  lemma SectionShape(cfg: Config, elems: seq<Element>, start: nat, page: Option<int>)
    requires start <= |elems|
    ensures var sec := Section(cfg, elems, start, page);
      sec == Kept(cfg.style, elems[start..]) || exists m: nat :: HaltsAt(cfg, elems, start, m, page, sec)
    ensures var sec := Section(cfg, elems, start, page);
      forall k | 0 <= k < |sec| ::
        !Skipped(cfg.style, sec[k]) && !StopsAt(cfg, sec[k], k > 0) && !PageBreak(cfg, sec[k], page)
  {
    if ScanTo(cfg, elems, start, |elems|, page).stopped {
      ScanHalted(cfg, elems, start, |elems|, page);
    } else {
      ScanRunning(cfg, elems, start, |elems|, page);
      assert elems[start..|elems|] == elems[start..];
    }
    ScanClean(cfg, elems, start, |elems|, page);
  }

  /**
   * Without blank skipping the section is the contiguous run elems[start..e]:
   * every element in it is taken, and e is |elems| or the element that halts.
   */
  lemma SectionRun(cfg: Config, elems: seq<Element>, start: nat, page: Option<int>) returns (e: nat)
    requires start <= |elems| && !cfg.style.skipBlank
    ensures start <= e <= |elems| && Section(cfg, elems, start, page) == elems[start..e]
    ensures e < |elems| ==> StepAt(cfg, elems[e], e > start, page) == Halt
    ensures forall k | start <= k < e :: StepAt(cfg, elems[k], k > start, page) == Take
  {
    e := SectionEnd(cfg, elems, start, page);
    var sec := Section(cfg, elems, start, page);
    ScanClean(cfg, elems, start, |elems|, page);
    forall k | start <= k < e ensures StepAt(cfg, elems[k], k > start, page) == Take {
      assert sec[k - start] == elems[k];
    }
  }

  /** Without blank skipping the section is the run elems[start..e], and e ends the list or halts the scan. */
  lemma SectionEnd(cfg: Config, elems: seq<Element>, start: nat, page: Option<int>) returns (e: nat)
    requires start <= |elems| && !cfg.style.skipBlank
    ensures start <= e <= |elems| && Section(cfg, elems, start, page) == elems[start..e]
    ensures e < |elems| ==> StepAt(cfg, elems[e], e > start, page) == Halt
  {
    var sec := Section(cfg, elems, start, page);
    SectionShape(cfg, elems, start, page);
    if sec == Kept(cfg.style, elems[start..]) {
      KeptAll(cfg.style, elems[start..]);
      e := |elems|;
    } else {
      var m: nat :| HaltsAt(cfg, elems, start, m, page, sec);
      KeptAll(cfg.style, elems[start..m]);
      e := m;
    }
  }

  /** An element the scan takes when it is first is the section's first element. */
  lemma SectionFirst(cfg: Config, elems: seq<Element>, start: nat, page: Option<int>)
    requires start < |elems| && StepAt(cfg, elems[start], false, page) == Take
    ensures Section(cfg, elems, start, page) != []
    ensures Section(cfg, elems, start, page)[0] == elems[start]
  {
    var sec := Section(cfg, elems, start, page);
    if ScanTo(cfg, elems, start, |elems|, page).stopped {
      ScanHalted(cfg, elems, start, |elems|, page);
      var m: nat :| HaltsAt(cfg, elems, start, m, page, sec);
      if m == start {
        assert false;
      }
      KeptHead(cfg.style, elems[start..m]);
    } else {
      ScanRunning(cfg, elems, start, |elems|, page);
      KeptHead(cfg.style, elems[start..|elems|]);
    }
  }

  /** The aims lines, or None when there is no start heading. */
  function AimsOutput(cfg: Config, elems: seq<Element>, fill: string -> string): (r: Option<seq<string>>)
    ensures r.None? <==> forall j | 0 <= j < |elems| :: !IsStart(cfg, elems[j])
  {
    match FirstStart(cfg, elems, 0)
    case None => None
    case Some(s) => Some(RenderAll(cfg.style, Section(cfg, elems, s, elems[s].page), fill))
  }

  method ExtractAims(cfg: Config, elems: seq<Element>, fill: string -> string) returns (r: Option<seq<string>>)
    ensures r == AimsOutput(cfg, elems, fill)
  {
    var start := FindStart(cfg, elems);
    if start.None? {
      return None;
    }
    var lines := ExtractSection(cfg, elems, start.value, elems[start.value].page, fill);
    return Some(lines);
  }
}
