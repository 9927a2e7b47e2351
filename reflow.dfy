/**
 * squash_single_newlines in scripts/02_ingest_reviewed_aims.py: body lines
 * become paragraphs. Consecutive non-blank lines are stripped and joined with
 * single spaces; a blank line flushes the pending paragraph, or, when none is
 * pending, adds an empty paragraph; a sentinel blank line ends the input;
 * empty paragraphs at either end are dropped; paragraphs are joined with
 * "\n\n".
 */
module Reflow {
  import opened Text

  /** The loop state: the paragraphs so far and the pending stripped lines. */
  datatype State = State(paragraphs: seq<string>, buf: seq<string>)

  predicate Blank(line: string) { Strip(line) == [] }

  /** One iteration of the loop. */
  function Feed(st: State, line: string): State {
    if Blank(line) then
      if st.buf != [] then State(st.paragraphs + [Strip(Join(" ", st.buf))], [])
      else State(st.paragraphs + [""], [])
    else State(st.paragraphs, st.buf + [Strip(line)])
  }

  /** The state after feeding every line, from the empty state. */
  function FeedAll(lines: seq<string>): State {
    if lines == [] then State([], [])
    else Feed(FeedAll(lines[..|lines| - 1]), lines[|lines| - 1])
  }

  /** The `pop(0)` loop: the leading empty paragraphs removed. */
  function DropLeading(ps: seq<string>): (r: seq<string>)
    ensures |r| <= |ps|
    ensures r == [] || r[0] != ""
    ensures r == ps[|ps| - |r|..]
    ensures forall k | 0 <= k < |ps| - |r| :: ps[k] == ""
  {
    if ps != [] && ps[0] == "" then DropLeading(ps[1..]) else ps
  }

  /** The `pop()` loop: the trailing empty paragraphs removed. */
  function DropTrailing(ps: seq<string>): (r: seq<string>)
    ensures |r| <= |ps|
    ensures r == [] || r[|r| - 1] != ""
    ensures r == ps[..|r|]
    ensures forall k | |r| <= k < |ps| :: ps[k] == ""
  {
    if ps != [] && ps[|ps| - 1] == "" then DropTrailing(ps[..|ps| - 1]) else ps
  }

  /** The paragraphs that are joined: the sentinel-flushed paragraphs with both ends trimmed. */
  function Paragraphs(lines: seq<string>): seq<string> {
    DropTrailing(DropLeading(FeedAll(lines + [""]).paragraphs))
  }

  function Squash(lines: seq<string>): string {
    Join("\n\n", Paragraphs(lines))
  }

  /** The for loop's state after lines[..i+1], in terms of the state after lines[..i]. */
  lemma FeedSnoc(lines: seq<string>, i: nat)
    requires i < |lines|
    ensures FeedAll(lines[..i + 1]) == Feed(FeedAll(lines[..i]), lines[i])
  {
    assert lines[..i + 1][..i] == lines[..i];
  }

  method SquashSingleNewlines(lines: seq<string>) returns (text: string)
    ensures text == Squash(lines)
  {
    var paragraphs: seq<string> := [];
    var buf: seq<string> := [];
    var input := lines + [""];
    for i := 0 to |input|
      invariant State(paragraphs, buf) == FeedAll(input[..i])
    {
      var line := input[i];
      FeedSnoc(input, i);
      if Strip(line) == [] {
        if buf != [] {
          paragraphs := paragraphs + [Strip(Join(" ", buf))];
          buf := [];
        } else {
          paragraphs := paragraphs + [""];
        }
      } else {
        buf := buf + [Strip(line)];
      }
    }
    assert input[..|input|] == input;
    while paragraphs != [] && paragraphs[0] == ""
      invariant DropLeading(paragraphs) == DropLeading(FeedAll(input).paragraphs)
      decreases |paragraphs|
    {
      paragraphs := paragraphs[1..];
    }
    while paragraphs != [] && paragraphs[|paragraphs| - 1] == ""
      invariant DropTrailing(paragraphs) == Paragraphs(lines)
      decreases |paragraphs|
    {
      paragraphs := paragraphs[..|paragraphs| - 1];
    }
    text := Join("\n\n", paragraphs);
  }

  // ---------------------------------------------------------------------
  // What the loop computes

  /** The number of blank lines. */
  function BlankCount(lines: seq<string>): nat {
    if lines == [] then 0
    else BlankCount(lines[..|lines| - 1]) + (if Blank(lines[|lines| - 1]) then 1 else 0)
  }

  /** The stripped non-blank lines after the last blank line, in order. */
  function Pending(lines: seq<string>): seq<string> {
    if lines == [] || Blank(lines[|lines| - 1]) then []
    else Pending(lines[..|lines| - 1]) + [Strip(lines[|lines| - 1])]
  }

  function StripAll(lines: seq<string>): (r: seq<string>)
    ensures |r| == |lines| && forall k | 0 <= k < |lines| :: r[k] == Strip(lines[k])
  {
    seq(|lines|, k requires 0 <= k < |lines| => Strip(lines[k]))
  }

  /** Every blank line adds exactly one paragraph, and no other line adds one. */
  lemma {:induction false} ParagraphCount(lines: seq<string>)
    ensures |FeedAll(lines).paragraphs| == BlankCount(lines)
  {
    if lines != [] {
      ParagraphCount(lines[..|lines| - 1]);
    }
  }

  /** The pending buffer is the stripped run of non-blank lines since the last blank line. */
  lemma {:induction false} PendingRun(lines: seq<string>)
    ensures FeedAll(lines).buf == Pending(lines)
  {
    if lines != [] {
      var init := lines[..|lines| - 1];
      PendingRun(init);
      assert init + [lines[|lines| - 1]] == lines;
      FeedBuf(init, lines[|lines| - 1]);
    }
  }

  /** The buffer after one more line: emptied by a blank line, extended by any other. */
  lemma FeedBuf(init: seq<string>, last: string)
    ensures FeedAll(init + [last]).buf == if Blank(last) then [] else FeedAll(init).buf + [Strip(last)]
  {
    FeedLast(init, last);
  }

  /** After a blank line (or at the start), the pending lines of a non-blank run are the run, stripped. */
  lemma {:induction false} PendingOfRun(pre: seq<string>, run: seq<string>)
    requires pre == [] || Blank(pre[|pre| - 1])
    requires forall k | 0 <= k < |run| :: !Blank(run[k])
    ensures Pending(pre + run) == StripAll(run)
  {
    if run == [] {
      assert pre + run == pre;
    } else {
      var init := run[..|run| - 1];
      var last := run[|run| - 1];
      assert forall k | 0 <= k < |init| :: init[k] == run[k];
      PendingOfRun(pre, init);
      AppendSnoc(pre, run);
      PendingSnoc(pre + init, last);
      StripSnoc(init, last);
    }
  }

  /** Splitting off the last element of a non-empty suffix. */
  lemma AppendSnoc<T>(pre: seq<T>, run: seq<T>)
    requires run != []
    ensures pre + run == (pre + run[..|run| - 1]) + [run[|run| - 1]]
    ensures run == run[..|run| - 1] + [run[|run| - 1]]
  {
  }

  lemma PendingSnoc(lines: seq<string>, last: string)
    requires !Blank(last)
    ensures Pending(lines + [last]) == Pending(lines) + [Strip(last)]
  {
    assert (lines + [last])[..|lines|] == lines;
  }

  lemma StripSnoc(run: seq<string>, last: string)
    ensures StripAll(run + [last]) == StripAll(run) + [Strip(last)]
  {
  }

  /** Non-blank lines add no paragraph. */
  lemma {:induction false} RunKeepsParagraphs(pre: seq<string>, run: seq<string>)
    requires forall k | 0 <= k < |run| :: !Blank(run[k])
    ensures FeedAll(pre + run).paragraphs == FeedAll(pre).paragraphs
  {
    if run == [] {
      assert pre + run == pre;
    } else {
      var init := run[..|run| - 1];
      var last := run[|run| - 1];
      assert forall k | 0 <= k < |init| :: init[k] == run[k];
      RunKeepsParagraphs(pre, init);
      AppendSnoc(pre, run);
      FeedLast(pre + init, last);
    }
  }

  /** Feeding one more line, in terms of the state before it. */
  lemma FeedLast(lines: seq<string>, last: string)
    ensures FeedAll(lines + [last]) == Feed(FeedAll(lines), last)
  {
    assert (lines + [last])[..|lines|] == lines;
  }

  /**
   * A maximal run of non-blank lines closed by a blank line becomes exactly
   * one paragraph: its lines stripped and joined with single spaces.
   */
  lemma RunFlushed(pre: seq<string>, run: seq<string>, blank: string)
    requires pre == [] || Blank(pre[|pre| - 1])
    requires run != [] && forall k | 0 <= k < |run| :: !Blank(run[k])
    requires Blank(blank)
    ensures FeedAll(pre + run + [blank]).paragraphs
         == FeedAll(pre).paragraphs + [Strip(Join(" ", StripAll(run)))]
  {
    RunKeepsParagraphs(pre, run);
    PendingOfRun(pre, run);
    PendingRun(pre + run);
    assert (pre + run + [blank])[..|pre + run|] == pre + run;
  }

  /** A blank line with nothing pending adds an empty paragraph. */
  lemma BlankAfterBlank(pre: seq<string>, blank: string)
    requires pre == [] || Blank(pre[|pre| - 1])
    requires Blank(blank)
    ensures FeedAll(pre + [blank]).paragraphs == FeedAll(pre).paragraphs + [""]
  {
    PendingRun(pre);
    assert (pre + [blank])[..|pre|] == pre;
  }

  /** The result never starts or ends with an empty paragraph, and is "" exactly when nothing is left. */
  lemma Trimmed(lines: seq<string>)
    ensures var ps := Paragraphs(lines);
      ps == [] || (ps[0] != "" && ps[|ps| - 1] != "")
    ensures Squash(lines) == "" <==> Paragraphs(lines) == []
  {
    var ps := Paragraphs(lines);
    if ps != [] {
      JoinNonEmpty("\n\n", ps);
    }
  }

  lemma JoinNonEmpty(sep: string, parts: seq<string>)
    requires parts != [] && parts[0] != ""
    ensures Join(sep, parts) != ""
  {
    if |parts| > 1 {
      assert Join(sep, parts) == parts[0] + sep + Join(sep, parts[1..]);
    }
  }

  /** Input made only of blank lines, or no lines at all, reflows to "". */
  lemma {:induction false} AllBlankFeed(lines: seq<string>)
    requires forall k | 0 <= k < |lines| :: Blank(lines[k])
    ensures FeedAll(lines).buf == []
    ensures forall k | 0 <= k < |FeedAll(lines).paragraphs| :: FeedAll(lines).paragraphs[k] == ""
  {
    if lines != [] {
      AllBlankFeed(lines[..|lines| - 1]);
    }
  }

  lemma AllBlank(lines: seq<string>)
    requires forall k | 0 <= k < |lines| :: Blank(lines[k])
    ensures Squash(lines) == ""
  {
    var input := lines + [""];
    assert forall k | 0 <= k < |input| :: Blank(input[k]);
    AllBlankFeed(input);
  }

  // ---------------------------------------------------------------------
  // Reflowing twice

  lemma StripLetter(c: char)
    requires !IsSpace(c)
    ensures Strip([c]) == [c]
  {
  }

  /** A clean non-blank line reflows to itself. */
  lemma CleanRun(pre: seq<string>, a: string, z: string)
    requires pre == [] || Blank(pre[|pre| - 1])
    requires a != [] && Strip(a) == a && Blank(z)
    ensures FeedAll(pre + [a] + [z]).paragraphs == FeedAll(pre).paragraphs + [a]
  {
    assert StripAll([a]) == [a];
    assert Join(" ", [a]) == a;
    RunFlushed(pre, [a], z);
  }

  /** Two blank lines between a and b leave one empty paragraph between them. */
  lemma TwoBlanksBetween(a: string, b: string, z: string)
    requires a != [] && Strip(a) == a && b != [] && Strip(b) == b && Blank(z)
    ensures FeedAll([a, z, z, b, z]).paragraphs == [a, "", b]
  {
    BlankLists(a, b, z);
    CleanRun([], a, z);
    BlankAfterBlank([a, z], z);
    CleanRun([a, z, z], b, z);
  }

  /** Three blank lines between a and b leave two empty paragraphs between them. */
  lemma ThreeBlanksBetween(a: string, b: string, z: string)
    requires a != [] && Strip(a) == a && b != [] && Strip(b) == b && Blank(z)
    ensures FeedAll([a, z, z, z, b, z]).paragraphs == [a, "", "", b]
  {
    BlankLists(a, b, z);
    CleanRun([], a, z);
    BlankAfterBlank([a, z], z);
    BlankAfterBlank([a, z, z], z);
    CleanRun([a, z, z, z], b, z);
  }

  /** The list identities behind the two examples: each line appended to what precedes it. */
  lemma BlankLists<T>(a: T, b: T, z: T)
    ensures [] + [a] + [z] == [a, z]
    ensures [a, z] + [z] == [a, z, z]
    ensures [a, z, z] + [b] + [z] == [a, z, z, b, z]
    ensures [a, z, z] + [z] == [a, z, z, z]
    ensures [a, z, z, z] + [b] + [z] == [a, z, z, z, b, z]
  {
  }

  lemma SplitFourBreaks()
    ensures SplitLines("a\n\n\n\nb") == ["a", "", "", "", "b"]
  {
    var s := "a\n\n\n\nb";
    assert LineEnd(s[5..], 0) == 1;
    assert SplitLines(s[5..]) == ["b"];
    assert LineEnd(s[4..], 0) == 0 && s[4..][1..] == s[5..];
    assert SplitLines(s[4..]) == [""] + ["b"];
    assert LineEnd(s[3..], 0) == 0 && s[3..][1..] == s[4..];
    assert SplitLines(s[3..]) == [""] + ["", "b"];
    assert LineEnd(s[2..], 0) == 0 && s[2..][1..] == s[3..];
    assert SplitLines(s[2..]) == [""] + ["", "", "b"];
    assert LineEnd(s, 0) == 1 && s[..1] == "a";
  }

  lemma ParagraphsTwoBlanks()
    ensures Paragraphs(["a", "", "", "b"]) == ["a", "", "b"]
  {
    StripLetter('a');
    StripLetter('b');
    TwoBlanksBetween("a", "b", "");
    assert ["a", "", "", "b"] + [""] == ["a", "", "", "b", ""];
  }

  lemma ParagraphsThreeBlanks()
    ensures Paragraphs(["a", "", "", "", "b"]) == ["a", "", "", "b"]
  {
    StripLetter('a');
    StripLetter('b');
    ThreeBlanksBetween("a", "b", "");
    assert ["a", "", "", "", "b"] + [""] == ["a", "", "", "", "b", ""];
  }

  lemma JoinEmpties()
    ensures Join("\n\n", ["a", "", "b"]) == "a\n\n\n\nb"
    ensures Join("\n\n", ["a", "", "", "b"]) == "a\n\n\n\n\n\nb"
  {
    assert Join("\n\n", ["b"]) == "b";
    assert Join("\n\n", ["", "b"]) == "\n\nb";
    assert Join("\n\n", ["", "", "b"]) == "\n\n\n\nb";
  }

  /**
   * Reflowing is not idempotent: reflowing the lines of an already reflowed
   * text can add empty paragraphs, because an empty paragraph is joined as
   * two more line breaks that the next pass reads as two blank lines.
   */
  lemma NotIdempotent()
    ensures Squash(["a", "", "", "b"]) == "a\n\n\n\nb"
    ensures Squash(SplitLines("a\n\n\n\nb")) == "a\n\n\n\n\n\nb"
  {
    ParagraphsTwoBlanks();
    SplitFourBreaks();
    ParagraphsThreeBlanks();
    JoinEmpties();
  }
}
