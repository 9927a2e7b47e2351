/**
 * scripts/pdf_to_text.py, tei_to_markdown: the TEI heads and paragraphs, in
 * document order, rendered as Markdown. The XML parse, the XPath query and
 * itertext are outside this model: each node arrives with its tag, its joined
 * text and the tags of its ancestors, nearest first. The rendering is the
 * whole-document rendering of Segment with the head depth computed from the
 * enclosing divs and with paragraphs emitted verbatim.
 */
module TeiMarkdown {
  import opened Text
  import opened Patterns
  import opened Segment

  /** A head or p node: its tag, "".join(node.itertext()), and its ancestors' tags from the parent outwards. */
  datatype TeiNode = TeiNode(tag: string, text: string, ancestors: seq<string>)

  predicate IsHead(n: TeiNode) { EndsWith(n.tag, "head") }

  predicate IsDiv(tag: string) { EndsWith(tag, "div") }

  /** The number of consecutive div ancestors starting at the parent. */
  function LeadingDivs(tags: seq<string>): (r: nat)
    ensures r <= |tags|
    ensures forall k | 0 <= k < r :: IsDiv(tags[k])
    ensures r < |tags| ==> !IsDiv(tags[r])
  {
    if tags != [] && IsDiv(tags[0]) then 1 + LeadingDivs(tags[1..]) else 0
  }

  /** The while loop walking up the parents: 1 plus the leading divs, capped at 4. */
  method DivDepth(ancestors: seq<string>) returns (depth: int)
    ensures depth == Min(1 + LeadingDivs(ancestors), 4)
  {
    depth := 1;
    var p := 0;
    while p < |ancestors| && IsDiv(ancestors[p])
      invariant 0 <= p <= LeadingDivs(ancestors) && depth == 1 + p
    {
      depth := depth + 1;
      p := p + 1;
    }
    depth := Min(depth, 4);
  }

  /** A head's level: 1 for a "specific aim(s)" head, otherwise from the enclosing divs. */
  function HeadDepth(n: TeiNode): (d: int)
    ensures 1 <= d <= 4
    ensures SpecificAimsPrefix(Strip(n.text)) ==> d == 1
    ensures !SpecificAimsPrefix(Strip(n.text)) ==> d == Min(1 + LeadingDivs(n.ancestors), 4)
  {
    if SpecificAimsPrefix(Strip(n.text)) then 1 else Min(1 + LeadingDivs(n.ancestors), 4)
  }

  /** The node as an element: its tag as the category and its head depth as the depth. */
  function AsElement(n: TeiNode): Element {
    Element(n.text, n.tag, None, Some(HeadDepth(n)))
  }

  function Elements(nodes: seq<TeiNode>): (es: seq<Element>)
    ensures |es| == |nodes|
    ensures forall i | 0 <= i < |nodes| :: es[i] == AsElement(nodes[i])
  {
    seq(|nodes|, i requires 0 <= i < |nodes| => AsElement(nodes[i]))
  }

  predicate HeadElement(e: Element) { EndsWith(e.category, "head") }

  /** Paragraph text is not wrapped. */
  function Verbatim(s: string): string { s }

  /** Heads by depth, paragraphs verbatim, blank nodes skipped. */
  function TeiStyle(): Style { Style(HeadElement, ByDepth, true) }

  /** A rendered head is "#" * depth, a space and the stripped text; a paragraph is its stripped text. */
  lemma NodeLine(n: TeiNode)
    ensures IsHead(n) ==> Line(TeiStyle(), AsElement(n), Verbatim) == Repeat('#', HeadDepth(n)) + " " + Strip(n.text)
    ensures !IsHead(n) ==> Line(TeiStyle(), AsElement(n), Verbatim) == Strip(n.text)
  {
    assert DepthLevel(Some(HeadDepth(n))) == HeadDepth(n);
  }

  /**
   * Entry pair k of the converted lines comes from a non-blank node n: a head
   * as "#" * depth, a space and its stripped text, a paragraph as its
   * stripped text, then "".
   */
  lemma OutputPair(nodes: seq<TeiNode>, k: nat) returns (n: TeiNode)
    requires k < |Kept(TeiStyle(), Elements(nodes))|
    ensures var out := RenderAll(TeiStyle(), Kept(TeiStyle(), Elements(nodes)), Verbatim);
      n in nodes && Strip(n.text) != []
      && (IsHead(n) ==> out[2 * k] == Repeat('#', HeadDepth(n)) + " " + Strip(n.text))
      && (!IsHead(n) ==> out[2 * k] == Strip(n.text))
      && out[2 * k + 1] == ""
  {
    var es := Elements(nodes);
    var kept := Kept(TeiStyle(), es);
    KeptMembers(TeiStyle(), es);
    assert kept[k] in kept;
    var j :| 0 <= j < |es| && es[j] == kept[k];
    n := nodes[j];
    NodeLine(n);
    RenderAllAt(TeiStyle(), kept, Verbatim, k);
  }

  /** The conversion loop's state: nodes[..i] converted into lines. */
  ghost predicate Converted(nodes: seq<TeiNode>, i: nat, lines: seq<string>) {
    i <= |nodes| && lines == RenderAll(TeiStyle(), Kept(TeiStyle(), Elements(nodes)[..i]), Verbatim)
  }

  /** One node's step of the conversion loop: a blank node adds nothing, any other its line and "". */
  lemma NodeStep(nodes: seq<TeiNode>, i: nat, lines: seq<string>)
    requires i < |nodes| && Converted(nodes, i, lines)
    ensures Strip(nodes[i].text) == [] ==> Converted(nodes, i + 1, lines)
    ensures Strip(nodes[i].text) != [] ==>
      Converted(nodes, i + 1, lines + [Line(TeiStyle(), AsElement(nodes[i]), Verbatim), ""])
  {
    var es := Elements(nodes);
    var e := es[i];
    assert e == AsElement(nodes[i]);
    assert es[..i + 1] == es[..i] + [e];
    KeptSnoc(TeiStyle(), es[..i], e);
    var kept := Kept(TeiStyle(), es[..i]);
    if Strip(e.text) != [] {
      assert Kept(TeiStyle(), es[..i + 1]) == kept + [e];
      RenderSnoc(TeiStyle(), kept, e, Verbatim);
    } else {
      assert Kept(TeiStyle(), es[..i + 1]) == kept;
    }
  }

  /** The line for one non-blank node: the head branch with its depth computation, or the paragraph. */
  method NodeText(node: TeiNode, text: string) returns (line: string)
    requires text == Strip(node.text)
    ensures line == Line(TeiStyle(), AsElement(node), Verbatim)
  {
    NodeLine(node);
    if EndsWith(node.tag, "head") {
      var depth;
      if SpecificAimsPrefix(text) {
        depth := 1;
      } else {
        depth := DivDepth(node.ancestors);
      }
      line := Repeat('#', depth) + " " + text;
    } else {
      line := text;
    }
  }

  method TeiToMarkdown(nodes: seq<TeiNode>) returns (md: string)
    ensures md == FileText(RenderAll(TeiStyle(), Kept(TeiStyle(), Elements(nodes)), Verbatim))
  {
    var lines: seq<string> := [];
    for i := 0 to |nodes|
      invariant Converted(nodes, i, lines)
    {
      var node := nodes[i];
      var text := Strip(node.text);
      NodeStep(nodes, i, lines);
      if text == [] {
        continue;
      }
      var line := NodeText(node, text);
      lines := lines + [line, ""];
    }
    assert Elements(nodes)[..|nodes|] == Elements(nodes);
    md := FileText(lines);
  }
}
