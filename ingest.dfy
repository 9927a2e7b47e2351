/**
 * scripts/02_ingest_reviewed_aims.py: every reviewed Specific Aims Markdown
 * file becomes one JSONL row, unless its reflowed body is empty. A file is
 * right-stripped and split into lines; lines matching `^\s*#+\s` are the
 * heading lines, all others the body; the body is reflowed by Reflow. The
 * grant id is the file stem with "_specific_aims", "_reviewed" and "_aims"
 * removed, in that order.
 */
module IngestReviewed {
  import opened Text
  import opened Patterns
  import opened Reflow

  const SectionName: string := "Specific Aims"

  /** What parse_markdown returns. */
  datatype Parts = Parts(heading: string, text: string, rawMd: string)

  /** The value of y as a list of at most one element. */
  function Opt<B>(y: Option<B>): seq<B> {
    if y.Some? then [y.value] else []
  }

  /** [f(x).value for x in xs if f(x) is not None]: the kept images, in order. */
  function Collect<A, B>(xs: seq<A>, f: A -> Option<B>): seq<B> {
    if xs == [] then [] else Collect(xs[..|xs| - 1], f) + Opt(f(xs[|xs| - 1]))
  }

  /** How many x in xs have f(x) == None. */
  function Dropped<A, B>(xs: seq<A>, f: A -> Option<B>): nat {
    if xs == [] then 0
    else Dropped(xs[..|xs| - 1], f) + (if f(xs[|xs| - 1]).None? then 1 else 0)
  }

  /** The state of a collecting loop after xs[..i+1], in terms of the state after xs[..i]. */
  lemma CollectSnoc<A, B>(xs: seq<A>, f: A -> Option<B>, i: nat)
    requires i < |xs|
    ensures Collect(xs[..i + 1], f) == Collect(xs[..i], f) + Opt(f(xs[i]))
  {
    assert xs[..i + 1][..i] == xs[..i];
  }

  /** Every element is either collected or dropped. */
  lemma {:induction false} CollectCount<A, B>(xs: seq<A>, f: A -> Option<B>)
    ensures |Collect(xs, f)| + Dropped(xs, f) == |xs|
  {
    if xs != [] {
      CollectCount(xs[..|xs| - 1], f);
    }
  }

  /** Collected are exactly the images of the elements that are kept. */
  lemma {:induction false} CollectMembers<A, B>(xs: seq<A>, f: A -> Option<B>, y: B)
    ensures y in Collect(xs, f) <==> exists k | 0 <= k < |xs| :: f(xs[k]) == Some(y)
  {
    if xs != [] {
      var init := xs[..|xs| - 1];
      CollectMembers(init, f, y);
      if y in Collect(init, f) {
        var k :| 0 <= k < |init| && f(init[k]) == Some(y);
        assert xs[k] == init[k];
      }
      if exists k | 0 <= k < |xs| :: f(xs[k]) == Some(y) {
        var k :| 0 <= k < |xs| && f(xs[k]) == Some(y);
        if k < |init| {
          assert init[k] == xs[k];
        }
      }
    }
  }

  /** A line sent to the headings (heading == true) or to the body (heading == false): right-stripped. */
  function Route(heading: bool): string -> Option<string> {
    line => if MarkdownHeading(line) == heading then Some(RStrip(line)) else None
  }

  /** The lines whose HEAD_RE test gives `heading`, each right-stripped, in order. */
  function Pick(lines: seq<string>, heading: bool): seq<string> {
    Collect(lines, Route(heading))
  }

  /** parse_markdown on the file's text. */
  function Parse(content: string): Parts {
    var raw := RStrip(content);
    var lines := SplitLines(raw);
    Parts(Strip(Join("\n", Pick(lines, true))), Squash(Pick(lines, false)), raw)
  }

  /** The loop's state after lines[..i+1], in terms of the state after lines[..i]. */
  lemma PickSnoc(lines: seq<string>, i: nat, heading: bool)
    requires i < |lines|
    ensures Pick(lines[..i + 1], heading)
         == Pick(lines[..i], heading) + (if MarkdownHeading(lines[i]) == heading then [RStrip(lines[i])] else [])
  {
    CollectSnoc(lines, Route(heading), i);
  }

  method ParseMarkdown(content: string) returns (parts: Parts)
    ensures parts == Parse(content)
  {
    var raw := RStrip(content);
    var lines := SplitLines(raw);
    var headings: seq<string> := [];
    var bodyLines: seq<string> := [];
    for i := 0 to |lines|
      invariant headings == Pick(lines[..i], true) && bodyLines == Pick(lines[..i], false)
    {
      PickSnoc(lines, i, true);
      PickSnoc(lines, i, false);
      if MarkdownHeading(lines[i]) {
        headings := headings + [RStrip(lines[i])];
      } else {
        bodyLines := bodyLines + [RStrip(lines[i])];
      }
    }
    assert lines[..|lines|] == lines;
    var text := SquashSingleNewlines(bodyLines);
    parts := Parts(Strip(Join("\n", headings)), text, raw);
  }

  // ---------------------------------------------------------------------
  // What parse_markdown promises

  /** Every line goes to exactly one of the two lists. */
  lemma {:induction false} PickPartition(lines: seq<string>)
    ensures |Pick(lines, true)| + |Pick(lines, false)| == |lines|
  {
    if lines != [] {
      var init := lines[..|lines| - 1];
      PickPartition(init);
      CollectSnoc(lines, Route(true), |init|);
      CollectSnoc(lines, Route(false), |init|);
      assert lines[..|init|] == init && lines[..|init| + 1] == lines;
    }
  }

  /** A list holds exactly the right-stripped lines whose HEAD_RE test gives its flag. */
  lemma PickMembers(lines: seq<string>, heading: bool, x: string)
    ensures x in Pick(lines, heading)
        <==> exists k | 0 <= k < |lines| :: MarkdownHeading(lines[k]) == heading && x == RStrip(lines[k])
  {
    CollectMembers(lines, Route(heading), x);
    if exists k | 0 <= k < |lines| :: Route(heading)(lines[k]) == Some(x) {
      var k :| 0 <= k < |lines| && Route(heading)(lines[k]) == Some(x);
      assert MarkdownHeading(lines[k]) == heading && x == RStrip(lines[k]);
    }
    if exists k | 0 <= k < |lines| :: MarkdownHeading(lines[k]) == heading && x == RStrip(lines[k]) {
      var k :| 0 <= k < |lines| && MarkdownHeading(lines[k]) == heading && x == RStrip(lines[k]);
      assert Route(heading)(lines[k]) == Some(x);
    }
  }

  /** A greedy run that ends inside a prefix ends at the same place in the whole string. */
  lemma {:induction false} RunInPrefix(p: string, s: string, i: nat, cls: CharClass)
    requires |p| <= |s| && s[..|p|] == p
    requires i <= |p| && i + Run(p, i, cls) < |p|
    ensures Run(s, i, cls) == Run(p, i, cls)
    decreases |p| - i
  {
    assert p[i] == s[i];
    if InClass(p[i], cls) {
      RunInPrefix(p, s, i + 1, cls);
    }
  }

  /** Right-stripping never turns a line into a heading line. */
  lemma StrippedHeading(line: string)
    requires MarkdownHeading(RStrip(line))
    ensures MarkdownHeading(line)
  {
    var p := RStrip(line);
    RStripPrefix(line);
    assert line[..|p|] == p;
    var k := Run(p, 0, Space);
    RunInPrefix(p, line, 0, Space);
    RunInPrefix(p, line, k, Hash);
    assert line[k + Run(p, k, Hash)] == p[k + Run(p, k, Hash)];
  }

  /** No body line is itself a heading line. */
  lemma BodyHasNoHeading(lines: seq<string>)
    ensures forall b | b in Pick(lines, false) :: !MarkdownHeading(b)
  {
    forall b | b in Pick(lines, false) ensures !MarkdownHeading(b) {
      PickMembers(lines, false, b);
      var k :| 0 <= k < |lines| && !MarkdownHeading(lines[k]) && b == RStrip(lines[k]);
      if MarkdownHeading(b) {
        StrippedHeading(lines[k]);
      }
    }
  }

  /** A heading line keeps its first '#' after right-stripping. */
  lemma HeadingKeepsHash(line: string) returns (j: nat)
    requires MarkdownHeading(line)
    ensures j < |RStrip(line)| && RStrip(line)[j] == '#'
  {
    j := Run(line, 0, Space);
    RStripPrefix(line);
  }

  /** sep.join(parts) begins with parts[0]. */
  lemma JoinStartsWith(sep: string, parts: seq<string>)
    requires parts != []
    ensures |parts[0]| <= |Join(sep, parts)| && Join(sep, parts)[..|parts[0]|] == parts[0]
  {
    if |parts| > 1 {
      assert Join(sep, parts) == parts[0] + (sep + Join(sep, parts[1..]));
    }
  }

  /** The heading is empty exactly when the file has no heading line. */
  lemma HeadingEmpty(content: string)
    ensures var lines := SplitLines(RStrip(content));
      Parse(content).heading == [] <==> forall k | 0 <= k < |lines| :: !MarkdownHeading(lines[k])
  {
    var lines := SplitLines(RStrip(content));
    if Pick(lines, true) != [] {
      var k := HeadingShown(lines);
    } else {
      NoHeadingLines(lines);
    }
  }

  /** Picked heading lines join to a non-blank heading, and come from some heading line k. */
  lemma HeadingShown(lines: seq<string>) returns (k: nat)
    requires Pick(lines, true) != []
    ensures k < |lines| && MarkdownHeading(lines[k])
    ensures Strip(Join("\n", Pick(lines, true))) != []
  {
    var hs := Pick(lines, true);
    assert hs[0] in hs;
    PickMembers(lines, true, hs[0]);
    k :| 0 <= k < |lines| && MarkdownHeading(lines[k]) && hs[0] == RStrip(lines[k]);
    var j := HeadingKeepsHash(lines[k]);
    JoinStartsWith("\n", hs);
    var joined := Join("\n", hs);
    assert joined[j] == hs[0][j] == '#';
    assert !AllSpace(joined);
  }

  /** No line was picked as a heading only when no line is one. */
  lemma NoHeadingLines(lines: seq<string>)
    requires Pick(lines, true) == []
    ensures forall k | 0 <= k < |lines| :: !MarkdownHeading(lines[k])
  {
    forall k | 0 <= k < |lines| ensures !MarkdownHeading(lines[k]) {
      PickMembers(lines, true, RStrip(lines[k]));
    }
  }

  /** raw_md is the file without its trailing whitespace. */
  lemma RawText(content: string)
    ensures var raw := Parse(content).rawMd;
      |raw| <= |content| && content[..|raw|] == raw && AllSpace(content[|raw|..])
      && (raw == [] || !IsSpace(raw[|raw| - 1]))
  {
    RStripPrefix(content);
  }

  // ---------------------------------------------------------------------
  // A worked example

  /** A line with no break that neither starts nor ends with whitespace. */
  predicate Clean(x: string) {
    x != [] && NoLineBreak(x) && !IsSpace(x[0]) && !IsSpace(x[|x| - 1])
  }

  lemma CleanStrips(x: string)
    requires Clean(x)
    ensures Strip(x) == x && RStrip(x) == x && !Blank(x)
  {
    StripClean(x);
    RStripClean(x);
  }

  /** The blank line is not a heading line. */
  lemma EmptyNotHeading()
    ensures !MarkdownHeading("")
  {
    assert Run("", 0, Space) == 0;
  }

  /** A heading line h, a blank line, a paragraph of lines a and b, a blank line, a paragraph c. */
  function Shape(h: string, a: string, b: string, c: string): seq<string> {
    [h, "", a, b, "", c]
  }

  lemma ShapeSplit(h: string, a: string, b: string, c: string)
    requires Clean(h) && Clean(a) && Clean(b) && Clean(c)
    ensures var text := Join("\n", Shape(h, a, b, c));
      RStrip(text) == text && SplitLines(text) == Shape(h, a, b, c)
  {
    var ls := Shape(h, a, b, c);
    assert forall n | 0 <= n < |ls| :: NoLineBreak(ls[n]);
    SplitJoin(ls);
    ShapeEnd(ls);
  }

  /** Text whose last line is clean has no trailing whitespace. */
  lemma ShapeEnd(ls: seq<string>)
    requires ls != [] && Clean(ls[|ls| - 1])
    ensures RStrip(Join("\n", ls)) == Join("\n", ls)
  {
    JoinLast("\n", ls);
    RStripClean(Join("\n", ls));
  }

  /** What each line of the shape is routed to. */
  lemma ShapeLines(h: string, a: string, b: string, c: string, heading: bool)
    requires Clean(h) && Clean(a) && Clean(b) && Clean(c)
    requires MarkdownHeading(h) && !MarkdownHeading(a) && !MarkdownHeading(b) && !MarkdownHeading(c)
    ensures Route(heading)(h) == (if heading then Some(h) else None)
    ensures Route(heading)("") == (if heading then None else Some(""))
    ensures Route(heading)(a) == (if heading then None else Some(a))
    ensures Route(heading)(b) == (if heading then None else Some(b))
    ensures Route(heading)(c) == (if heading then None else Some(c))
  {
    EmptyNotHeading();
    CleanStrips(h);
    CleanStrips(a);
    CleanStrips(b);
    CleanStrips(c);
    assert RStrip("") == "";
  }

  lemma CollectPush<A, B>(xs: seq<A>, x: A, f: A -> Option<B>)
    ensures Collect(xs + [x], f) == Collect(xs, f) + Opt(f(x))
  {
    assert (xs + [x])[..|xs|] == xs;
  }

  /** Collecting three more elements adds their images, if any, in order. */
  lemma CollectThree<A, B>(pre: seq<A>, x0: A, x1: A, x2: A, f: A -> Option<B>)
    ensures Collect(pre + [x0, x1, x2], f) == Collect(pre, f) + Opt(f(x0)) + Opt(f(x1)) + Opt(f(x2))
  {
    CollectPush(pre, x0, f);
    CollectPush(pre + [x0], x1, f);
    CollectPush(pre + [x0] + [x1], x2, f);
    assert pre + [x0] + [x1] + [x2] == pre + [x0, x1, x2];
  }

  /** Collecting over a six-element list: each element's image, if any, in order. */
  lemma CollectSix<A, B>(x0: A, x1: A, x2: A, x3: A, x4: A, x5: A, f: A -> Option<B>)
    ensures Collect([x0, x1, x2, x3, x4, x5], f)
         == Opt(f(x0)) + Opt(f(x1)) + Opt(f(x2)) + Opt(f(x3)) + Opt(f(x4)) + Opt(f(x5))
  {
    CollectThree([], x0, x1, x2, f);
    assert [] + [x0, x1, x2] == [x0, x1, x2];
    assert Collect([], f) + Opt(f(x0)) == Opt(f(x0));
    CollectThree([x0, x1, x2], x3, x4, x5, f);
    assert [x0, x1, x2] + [x3, x4, x5] == [x0, x1, x2, x3, x4, x5];
  }

  lemma ShapeHeadings(h: string, a: string, b: string, c: string)
    requires Clean(h) && Clean(a) && Clean(b) && Clean(c)
    requires MarkdownHeading(h) && !MarkdownHeading(a) && !MarkdownHeading(b) && !MarkdownHeading(c)
    ensures Pick(Shape(h, a, b, c), true) == [h]
  {
    ShapeLines(h, a, b, c, true);
    CollectSix(h, "", a, b, "", c, Route(true));
    OptsHeading(h);
  }

  lemma ShapeBody(h: string, a: string, b: string, c: string)
    requires Clean(h) && Clean(a) && Clean(b) && Clean(c)
    requires MarkdownHeading(h) && !MarkdownHeading(a) && !MarkdownHeading(b) && !MarkdownHeading(c)
    ensures Pick(Shape(h, a, b, c), false) == ["", a, b, "", c]
  {
    ShapeLines(h, a, b, c, false);
    CollectSix(h, "", a, b, "", c, Route(false));
    OptsBody("", a, b, "", c);
  }

  /** Six images, the first dropped: the other five, in order. */
  lemma OptsBody<B>(x1: B, x2: B, x3: B, x4: B, x5: B)
    ensures Opt<B>(None) + Opt(Some(x1)) + Opt(Some(x2)) + Opt(Some(x3)) + Opt(Some(x4)) + Opt(Some(x5))
         == [x1, x2, x3, x4, x5]
  {
  }

  /** Six images, only the first kept: that one. */
  lemma OptsHeading<B>(x0: B)
    ensures Opt(Some(x0)) + Opt<B>(None) + Opt<B>(None) + Opt<B>(None) + Opt<B>(None) + Opt<B>(None) == [x0]
  {
  }

  /** The paragraphs fed from a blank line and a two-line run closed by a blank line. */
  lemma FeedFirstRun(z: string, a: string, b: string)
    requires Blank(z) && !Blank(a) && !Blank(b)
    ensures FeedAll([z, a, b, z]).paragraphs == ["", Strip(Join(" ", StripAll([a, b])))]
  {
    ShapeLists(z, a, b, z);
    BlankAfterBlank([], z);
    RunFlushed([z], [a, b], z);
  }

  /** The list identities behind the shape: each run appended to what precedes it. */
  lemma ShapeLists<T>(z: T, a: T, b: T, c: T)
    ensures [] + [z] == [z]
    ensures [z] + [a, b] + [z] == [z, a, b, z]
    ensures [z, a, b, z] + [c] + [z] == [z, a, b, z, c, z]
  {
  }

  /** ... then a one-line run closed by a blank line. */
  lemma ShapeFeed(z: string, a: string, b: string, c: string)
    requires Blank(z) && !Blank(a) && !Blank(b) && !Blank(c)
    ensures FeedAll([z, a, b, z, c, z]).paragraphs
         == ["", Strip(Join(" ", StripAll([a, b]))), Strip(Join(" ", StripAll([c])))]
  {
    FeedFirstRun(z, a, b);
    ShapeLists(z, a, b, c);
    RunFlushed([z, a, b, z], [c], z);
  }

  /** Clean lines joined with a space are stripped to themselves. */
  lemma CleanJoin(a: string, b: string)
    requires Clean(a) && Clean(b)
    ensures Strip(Join(" ", StripAll([a, b]))) == a + " " + b
    ensures Strip(Join(" ", StripAll([b]))) == b
  {
    CleanStrips(a);
    CleanStrips(b);
    var ab := a + " " + b;
    assert StripAll([a, b]) == [a, b] && StripAll([b]) == [b];
    assert Join(" ", [a, b]) == ab;
    assert ab[0] == a[0] && ab[|ab| - 1] == b[|b| - 1];
    StripClean(ab);
  }

  /** Only the leading empty paragraph is dropped. */
  lemma DropFirst(p: string, q: string)
    requires p != [] && q != []
    ensures DropTrailing(DropLeading(["", p, q])) == [p, q]
  {
    assert ["", p, q][1..] == [p, q];
  }

  lemma ShapeParagraphs(a: string, b: string, c: string)
    requires Clean(a) && Clean(b) && Clean(c)
    ensures Paragraphs(["", a, b, "", c]) == [a + " " + b, c]
  {
    CleanStrips(a);
    CleanStrips(b);
    CleanStrips(c);
    assert Blank("");
    ShapeFeed("", a, b, c);
    CleanJoin(a, b);
    CleanJoin(a, c);
    assert ["", a, b, "", c] + [""] == ["", a, b, "", c, ""];
    DropFirst(a + " " + b, c);
  }

  /**
   * A heading line, a blank line, a paragraph written on two lines, a blank
   * line and a one-line paragraph: the heading is the heading line, the text
   * joins the first paragraph's lines with a space and separates the two
   * paragraphs with one blank line, and the raw text is the whole file.
   */
  lemma ShapeParse(h: string, a: string, b: string, c: string)
    requires Clean(h) && Clean(a) && Clean(b) && Clean(c)
    requires MarkdownHeading(h) && !MarkdownHeading(a) && !MarkdownHeading(b) && !MarkdownHeading(c)
    ensures var text := Join("\n", Shape(h, a, b, c));
      Parse(text) == Parts(h, a + " " + b + "\n\n" + c, text)
  {
    ShapeSplit(h, a, b, c);
    ShapeHeadings(h, a, b, c);
    ShapeBody(h, a, b, c);
    ShapeParagraphs(a, b, c);
    CleanStrips(h);
    assert Join("\n", [h]) == h;
    assert Join("\n\n", [a + " " + b, c]) == a + " " + b + "\n\n" + c;
  }

  /** Letters, spaces, '#' and '.'. */
  predicate Plain(c: char) {
    c == ' ' || c == '#' || c == '.' || 'a' <= c <= 'z' || 'A' <= c <= 'Z'
  }

  lemma PlainClean(x: string)
    requires x != [] && x[0] != ' ' && x[|x| - 1] != ' '
    requires forall i | 0 <= i < |x| :: Plain(x[i])
    ensures Clean(x)
  {
  }

  /** A line that starts with a letter is not a heading line. */
  lemma LetterFirst(x: string)
    requires x != [] && ('a' <= x[0] <= 'z' || 'A' <= x[0] <= 'Z')
    ensures !MarkdownHeading(x)
  {
    assert Run(x, 0, Space) == 0;
    assert Run(x, 0, Hash) == 0;
  }

  lemma HeadingLiteral()
    ensures Clean("# Specific Aims") && MarkdownHeading("# Specific Aims")
  {
    HeadingPlain();
    PlainClean("# Specific Aims");
    HeadingMarked();
  }

  lemma HeadingPlain()
    ensures forall i | 0 <= i < |"# Specific Aims"| :: Plain("# Specific Aims"[i])
  {
  }

  lemma HeadingMarked()
    ensures MarkdownHeading("# Specific Aims")
  {
    HashSpace("# Specific Aims");
  }

  /** A line starting "# " is a heading line. */
  lemma HashSpace(x: string)
    requires |x| >= 2 && x[0] == '#' && x[1] == ' '
    ensures MarkdownHeading(x)
  {
    assert Run(x, 0, Space) == 0;
    assert Run(x, 1, Hash) == 0;
  }

  lemma PlainLiteral(x: string)
    requires x in {"Line one", "still line one.", "Line two."}
    ensures Clean(x) && !MarkdownHeading(x)
  {
    assert forall i | 0 <= i < |x| :: Plain(x[i]);
    PlainClean(x);
    LetterFirst(x);
  }

  /**
   * "# Specific Aims\n\nLine one\nstill line one.\n\nLine two." gives the
   * heading "# Specific Aims" and the text "Line one still line one.\n\nLine two.".
   */
  lemma ExampleParse()
    ensures var text := Join("\n", Shape("# Specific Aims", "Line one", "still line one.", "Line two."));
      Parse(text) == Parts("# Specific Aims", "Line one" + " " + "still line one." + "\n\n" + "Line two.", text)
  {
    HeadingLiteral();
    PlainLiteral("Line one");
    PlainLiteral("still line one.");
    PlainLiteral("Line two.");
    ShapeParse("# Specific Aims", "Line one", "still line one.", "Line two.");
  }

  // ---------------------------------------------------------------------
  // grant_id

  /** md.stem.replace("_specific_aims", "").replace("_reviewed", "").replace("_aims", "") */
  function GrantId(stem: string): (r: string)
    ensures |r| <= |stem|
  {
    var a := Replace(stem, "_specific_aims", "");
    var b := Replace(a, "_reviewed", "");
    Replace(b, "_aims", "")
  }

  /** A stem holding none of the tokens is its own id. */
  lemma GrantIdUntouched(stem: string)
    requires !Contains(stem, "_specific_aims") && !Contains(stem, "_reviewed") && !Contains(stem, "_aims")
    ensures GrantId(stem) == stem
  {
    ReplaceAbsent(stem, "_specific_aims", "");
    ReplaceAbsent(stem, "_reviewed", "");
    ReplaceAbsent(stem, "_aims", "");
  }

  /** Removing "_aims" can leave a new "_aims": the id of "_ai_aimsms" is "_aims". */
  lemma GrantIdCanKeepToken()
    ensures GrantId("_ai_aimsms") == "_aims"
    ensures Contains(GrantId("_ai_aimsms"), "_aims")
  {
    NoLongToken();
    NoReviewed();
    InnerAims();
    assert OccursAt("_aims", "_aims", 0);
  }

  /** Every occurrence of a token is removed, not only the first: the id of "_aims_aims" is empty. */
  lemma GrantIdRemovesAll()
    ensures GrantId("_aims_aims") == ""
  {
    var s := "_aims_aims";
    assert Replace(s, "_specific_aims", "") == s;
    assert s[..9][1] == 'a' != "_reviewed"[1];
    assert s[1..][..9][0] == 'a' != "_reviewed"[0];
    assert Replace(s[2..], "_reviewed", "") == s[2..];
    assert Replace(s, "_reviewed", "") == s;
    assert s[5..][..5] == "_aims" && s[5..][5..] == [];
    assert Replace(s[5..], "_aims", "") == "";
    assert s[..5] == "_aims";
  }

  lemma NoLongToken()
    ensures Replace("_ai_aimsms", "_specific_aims", "") == "_ai_aimsms"
  {
  }

  lemma NoReviewed()
    ensures Replace("_ai_aimsms", "_reviewed", "") == "_ai_aimsms"
  {
    var s := "_ai_aimsms";
    assert s[..9][1] == 'a' != "_reviewed"[1];
    assert s[1..][..9][0] == 'a' != "_reviewed"[0];
    assert Replace(s[2..], "_reviewed", "") == s[2..];
  }

  lemma InnerAims()
    ensures Replace("_ai_aimsms", "_aims", "") == "_aims"
  {
    var s := "_ai_aimsms";
    assert Replace(s[8..], "_aims", "") == "ms";
    assert s[3..][..5] == "_aims" && s[3..][5..] == s[8..];
    assert Replace(s[3..], "_aims", "") == "ms";
    assert s[2..][..5] != "_aims" && s[2..][1..] == s[3..];
    assert Replace(s[2..], "_aims", "") == "ims";
    assert s[1..][..5] != "_aims" && s[1..][1..] == s[2..];
    assert Replace(s[1..], "_aims", "") == "aims";
    assert s[..5] != "_aims" && s[1..] == s[1..];
  }

  // ---------------------------------------------------------------------
  // main

  /** A reviewed file: its stem and its text. */
  datatype MdFile = MdFile(stem: string, content: string)

  /** One JSONL row. */
  datatype Row = Row(grantId: string, section: string, heading: string, text: string, rawMd: string)

  /** The row written for a file, or None when its body text is empty and it is skipped. */
  function RowOf(f: MdFile): (r: Option<Row>)
    ensures r.None? <==> Parse(f.content).text == []
    ensures r.Some? ==>
      r.value.text != [] && r.value.section == SectionName
      && r.value.grantId == GrantId(f.stem) && r.value.rawMd == RStrip(f.content)
  {
    var parts := Parse(f.content);
    if parts.text == [] then None
    else Some(Row(GrantId(f.stem), SectionName, parts.heading, parts.text, parts.rawMd))
  }

  /** The rows written for files, in file order. */
  function Rows(files: seq<MdFile>): seq<Row> {
    Collect(files, RowOf)
  }

  /** How many files are skipped. */
  function Skipped(files: seq<MdFile>): nat {
    Dropped(files, RowOf)
  }

  /** The script's outcome: it exits on an empty file list, otherwise it writes rows and reports a count. */
  datatype Outcome = NoFiles | Ingested(rows: seq<Row>, reported: nat)

  /** The row for one file: parse, skip on empty text, otherwise derive the id. */
  method IngestFile(f: MdFile) returns (row: Option<Row>)
    ensures row == RowOf(f)
  {
    var parts := ParseMarkdown(f.content);
    if parts.text == [] {
      return None;
    }
    var grantId := Replace(Replace(Replace(f.stem, "_specific_aims", ""), "_reviewed", ""), "_aims", "");
    row := Some(Row(grantId, SectionName, parts.heading, parts.text, parts.rawMd));
  }

  /** main over the sorted file list: files are taken in the order given. */
  method Ingest(files: seq<MdFile>) returns (r: Outcome)
    ensures r.NoFiles? <==> files == []
    ensures r.Ingested? ==> r.rows == Rows(files) && r.reported == |files|
  {
    if files == [] {
      return NoFiles;
    }
    var rows: seq<Row> := [];
    for i := 0 to |files|
      invariant rows == Rows(files[..i])
    {
      CollectSnoc(files, RowOf, i);
      var row := IngestFile(files[i]);
      if row.None? {
        continue;
      }
      rows := rows + [row.value];
    }
    assert files[..|files|] == files;
    r := Ingested(rows, |files|);
  }

  // ---------------------------------------------------------------------
  // What main promises

  /** Every written row has a non-empty text and the section "Specific Aims". */
  lemma RowsShape(files: seq<MdFile>)
    ensures forall row | row in Rows(files) :: row.text != [] && row.section == SectionName
  {
    forall row | row in Rows(files) ensures row.text != [] && row.section == SectionName {
      CollectMembers(files, RowOf, row);
    }
  }

  /** A row is written exactly for the files that are not skipped, and it is that file's row. */
  lemma RowsMembers(files: seq<MdFile>, row: Row)
    ensures row in Rows(files) <==> exists k | 0 <= k < |files| :: RowOf(files[k]) == Some(row)
  {
    CollectMembers(files, RowOf, row);
  }

  /** The reported count is the number of files, skipped ones included: it exceeds the rows written exactly when a file was skipped. */
  lemma ReportedCount(files: seq<MdFile>)
    ensures |Rows(files)| + Skipped(files) == |files|
    ensures |Rows(files)| < |files| <==> Skipped(files) > 0
  {
    CollectCount(files, RowOf);
  }
}
