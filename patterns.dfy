/**
 * The regular expressions of the scripts, each written out as the matcher it
 * denotes (Python `re` semantics, including backtracking, worked out by hand):
 *
 *   AIMS_HEAD    (?i)\bspecific\s+aims?\b                          searched
 *   AIM_SUBHEAD  (?i)\b(?:specific\s+)?aim\s*\d+\b|\baim\s*\d+\b    searched
 *                (the plural variant has `aims?` in its first branch)
 *   STOP_HEAD    (?i)^(w1|w2|...)\b  with multi-word entries joined by \s+
 *   HEAD_RE      ^\s*#+\s                                          matched
 *   (?i)^specific\s+aims?$     on stripped text (validation script)
 *   (?i)specific\s+aims?       matched at the start (TEI converter)
 *
 * `\s` is Python's Unicode whitespace (Text.IsSpace); `\w`, `\b`, `\d` and the
 * case-insensitive comparison are taken over ASCII.
 */
module Patterns {
  import opened Text

  predicate WordChar(c: char) {
    'a' <= c <= 'z' || 'A' <= c <= 'Z' || '0' <= c <= '9' || c == '_'
  }

  /** Case folding used by (?i) for the lower-case ASCII letters of a pattern. */
  function Fold(c: char): char {
    if 'A' <= c <= 'Z' then (c as int - 'A' as int + 'a' as int) as char else c
  }

  /** `\b` at position i (between s[i-1] and s[i]). */
  predicate Boundary(s: string, i: nat)
    requires i <= |s|
  {
    (i > 0 && WordChar(s[i - 1])) != (i < |s| && WordChar(s[i]))
  }

  /** The literal lower-case word w, compared case-insensitively, starts at i. */
  predicate WordAt(s: string, i: nat, w: string) {
    i + |w| <= |s| && forall k | 0 <= k < |w| :: Fold(s[i + k]) == w[k]
  }

  datatype CharClass = Space | Digit | Hash

  predicate InClass(c: char, cls: CharClass) {
    match cls
    case Space => IsSpace(c)
    case Digit => '0' <= c <= '9'
    case Hash => c == '#'
  }

  /** Length of the longest run of characters of class cls starting at i (what a greedy `\s*`, `\d+`, `#+` takes). */
  function Run(s: string, i: nat, cls: CharClass): (n: nat)
    requires i <= |s|
    ensures i + n <= |s|
    ensures forall j | i <= j < i + n :: InClass(s[j], cls)
    ensures i + n == |s| || !InClass(s[i + n], cls)
    decreases |s| - i
  {
    if i < |s| && InClass(s[i], cls) then 1 + Run(s, i + 1, cls) else 0
  }

  /**
   * The words ws matched case-insensitively from i, consecutive words separated
   * by `\s+`; the position after the last word, or None when they do not match.
   */
  function PhraseEnd(s: string, i: nat, ws: seq<string>): (r: Option<nat>)
    requires i <= |s|
    ensures r.Some? ==> i <= r.value <= |s|
    decreases |ws|
  {
    if |ws| == 0 then Some(i)
    else if !(i + |ws[0]| <= |s| && WordAt(s, i, ws[0])) then None
    else if |ws| == 1 then Some(i + |ws[0]|)
    else
      var j := i + |ws[0]|;
      var gap := Run(s, j, Space);
      if gap == 0 then None else PhraseEnd(s, j + gap, ws[1..])
  }

  /** `w1\s+w2` matched case-insensitively from i; the position after w2. */
  function TwoWordEnd(s: string, i: nat, w1: string, w2: string): (r: Option<nat>)
    requires i <= |s|
    ensures r.Some? ==> i + |w1| + 1 + |w2| <= r.value <= |s|
  {
    if WordAt(s, i, w1) then
      var j := i + |w1|;
      var g := Run(s, j, Space);
      if g > 0 && WordAt(s, j + g, w2) then Some(j + g + |w2|) else None
    else None
  }

  /** `specific\s+aim` matched case-insensitively from i; the position after "aim". */
  function SpecificAimEnd(s: string, i: nat): (r: Option<nat>)
    requires i <= |s|
  {
    TwoWordEnd(s, i, "specific", "aim")
  }

  /** AIMS_HEAD matches at i: `\bspecific\s+aim`, then `s\b` or `\b`. */
  predicate AimsHeadAt(s: string, i: nat)
    requires i <= |s|
  {
    var p := SpecificAimEnd(s, i);
    Boundary(s, i) && p.Some? &&
    (Boundary(s, p.value) || (p.value < |s| && Fold(s[p.value]) == 's' && Boundary(s, p.value + 1)))
  }

  /** AIMS_HEAD.search(s) succeeds. */
  predicate AimsHead(s: string) {
    exists i: nat | i <= |s| :: AimsHeadAt(s, i)
  }

  /** `\s*\d+\b` from k: greedy spaces, then a maximal digit run followed by a boundary. */
  predicate NumberFollows(s: string, k: nat)
    requires k <= |s|
  {
    var m := k + Run(s, k, Space);
    var d := Run(s, m, Digit);
    d >= 1 && Boundary(s, m + d)
  }

  /** After the letters "aim" end at k: `\s*\d+\b`, or with plural also `s\s*\d+\b`. */
  predicate AimNumberFrom(s: string, k: nat, plural: bool)
    requires k <= |s|
  {
    NumberFollows(s, k) || (plural && k < |s| && Fold(s[k]) == 's' && NumberFollows(s, k + 1))
  }

  /**
   * AIM_SUBHEAD matches at i. The first branch is `\b(?:specific\s+)?aim...`;
   * the second branch `\baim\s*\d+\b` is the first without the optional group
   * and the optional `s`, so it adds no matches.
   */
  predicate SubheadAt(s: string, i: nat, plural: bool)
    requires i <= |s|
  {
    var long := SpecificAimEnd(s, i);
    var short := PhraseEnd(s, i, ["aim"]);
    Boundary(s, i) &&
    ((long.Some? && AimNumberFrom(s, long.value, plural)) ||
     (short.Some? && AimNumberFrom(s, short.value, plural)))
  }

  /** AIM_SUBHEAD.search(s) succeeds; plural selects the `aims?` variant. */
  predicate AimSubhead(s: string, plural: bool) {
    exists i: nat | i <= |s| :: SubheadAt(s, i, plural)
  }

  /** One alternative of STOP_HEAD, anchored at 0 and followed by `\b`. */
  predicate StopPhraseAt0(s: string, phrase: seq<string>) {
    var p := PhraseEnd(s, 0, phrase);
    p.Some? && Boundary(s, p.value)
  }

  /** STOP_HEAD.match(s) for the alternatives `stops`. */
  predicate StopHead(stops: seq<seq<string>>, s: string) {
    exists k | 0 <= k < |stops| :: StopPhraseAt0(s, stops[k])
  }

  /** HEAD_RE.match(line): `^\s*#+\s`. */
  predicate MarkdownHeading(line: string) {
    var k := Run(line, 0, Space);
    var h := Run(line, k, Hash);
    h >= 1 && k + h < |line| && IsSpace(line[k + h])
  }

  /** Python's `$`: the end of the text, or just before a newline that ends it. */
  predicate AtEnd(s: string, j: nat) {
    j == |s| || (j + 1 == |s| && s[j] == '\n')
  }

  /** re.search(r"(?i)^specific\s+aims?$", s) */
  predicate WholeSpecificAims(s: string) {
    var p := SpecificAimEnd(s, 0);
    p.Some? &&
    (AtEnd(s, p.value) || (p.value < |s| && Fold(s[p.value]) == 's' && AtEnd(s, p.value + 1)))
  }

  /** re.match(r"(?i)specific\s+aims?", s): a prefix match, with no end anchor. */
  predicate SpecificAimsPrefix(s: string) {
    SpecificAimEnd(s, 0).Some?
  }

  // ---------------------------------------------------------------------
  // Facts about the matchers

  lemma FoldLetterNotSpace(c: char)
    requires 'a' <= Fold(c) <= 'z'
    ensures !IsSpace(c) && WordChar(c)
  {
  }

  /** The first and the last character of a `specific\s+aim` match are letters. */
  lemma SpecificAimChars(s: string, i: nat)
    requires i <= |s| && SpecificAimEnd(s, i).Some?
    ensures var e := SpecificAimEnd(s, i).value;
      !IsSpace(s[i]) && WordChar(s[i]) && !IsSpace(s[e - 1]) && WordChar(s[e - 1])
  {
    var e := SpecificAimEnd(s, i).value;
    assert Fold(s[i + 0]) == "specific"[0];
    assert Fold(s[e - 3 + 2]) == "aim"[2];
    FoldLetterNotSpace(s[i]);
    FoldLetterNotSpace(s[e - 1]);
  }

  lemma WordAtWindow(s: string, a: nat, b: nat, i: nat, w: string)
    requires a <= i && i + |w| <= b <= |s| && WordAt(s, i, w)
    ensures WordAt(s[a..b], i - a, w)
  {
    forall k | 0 <= k < |w| ensures Fold(s[a..b][i - a + k]) == w[k] {
      assert s[a..b][i - a + k] == s[i + k];
    }
  }

  lemma {:induction false} RunWindow(s: string, a: nat, b: nat, j: nat, cls: CharClass)
    requires a <= j <= b <= |s| && j + Run(s, j, cls) < b
    ensures Run(s[a..b], j - a, cls) == Run(s, j, cls)
    decreases |s| - j
  {
    if j < |s| && InClass(s[j], cls) {
      RunWindow(s, a, b, j + 1, cls);
    }
  }

  /** A `w1\s+w2` match lying inside the window s[a..b] is a match of the window, shifted by a. */
  lemma TwoWordWindow(s: string, a: nat, b: nat, i: nat, w1: string, w2: string)
    requires a <= i <= b <= |s| && w2 != []
    requires TwoWordEnd(s, i, w1, w2).Some? && TwoWordEnd(s, i, w1, w2).value <= b
    ensures TwoWordEnd(s[a..b], i - a, w1, w2) == Some(TwoWordEnd(s, i, w1, w2).value - a)
  {
    var g := TwoWordWindowParts(s, a, b, i, w1, w2);
    TwoWordFrom(s[a..b], i - a, w1, w2, g);
  }

  /** The pieces of a `w1\s+w2` match inside the window s[a..b], as pieces of the window. */
  lemma TwoWordWindowParts(s: string, a: nat, b: nat, i: nat, w1: string, w2: string) returns (g: nat)
    requires a <= i <= b <= |s| && w2 != []
    requires TwoWordEnd(s, i, w1, w2).Some? && TwoWordEnd(s, i, w1, w2).value <= b
    ensures i - a + |w1| <= b - a && g > 0
    ensures WordAt(s[a..b], i - a, w1) && g == Run(s[a..b], i - a + |w1|, Space)
    ensures WordAt(s[a..b], i - a + |w1| + g, w2)
    ensures TwoWordEnd(s, i, w1, w2) == Some(i + |w1| + g + |w2|)
  {
    g := TwoWordParts(s, i, w1, w2);
    var j := i + |w1|;
    WordAtWindow(s, a, b, i, w1);
    RunWindow(s, a, b, j, Space);
    WordAtWindow(s, a, b, j + g, w2);
  }

  /** The pieces of a `w1\s+w2` match: w1, a gap of g spaces, w2. */
  lemma TwoWordParts(s: string, i: nat, w1: string, w2: string) returns (g: nat)
    requires i <= |s| && TwoWordEnd(s, i, w1, w2).Some?
    ensures WordAt(s, i, w1) && g == Run(s, i + |w1|, Space) && g > 0
    ensures WordAt(s, i + |w1| + g, w2) && TwoWordEnd(s, i, w1, w2) == Some(i + |w1| + g + |w2|)
  {
    g := Run(s, i + |w1|, Space);
  }

  /** w1, a gap of g spaces and w2 from i make a `w1\s+w2` match. */
  lemma TwoWordFrom(s: string, i: nat, w1: string, w2: string, g: nat)
    requires i + |w1| <= |s| && WordAt(s, i, w1) && g == Run(s, i + |w1|, Space) && g > 0
    requires WordAt(s, i + |w1| + g, w2)
    ensures TwoWordEnd(s, i, w1, w2) == Some(i + |w1| + g + |w2|)
  {
  }

  /** A text AIMS_HEAD finds is never blank. */
  lemma AimsHeadNotBlank(s: string)
    requires AimsHead(s)
    ensures !AllSpace(s) && Strip(s) != []
  {
    var i: nat :| i <= |s| && AimsHeadAt(s, i);
    SpecificAimChars(s, i);
  }

  /** Strip(s) is the window s[a..b] with only whitespace outside it. */
  lemma StripWindow(s: string) returns (a: nat, b: nat)
    ensures a <= b <= |s| && Strip(s) == s[a..b]
    ensures forall j | 0 <= j < a :: IsSpace(s[j])
    ensures forall j | b <= j < |s| :: IsSpace(s[j])
  {
    var t := LStrip(s);
    a := |s| - |t|;
    var m := |RStrip(t)|;
    b := a + m;
    LStripSuffix(s);
    RStripPrefix(t);
    assert t == s[a..];
    assert RStrip(t) == t[..m];
    assert AllSpace(s[..a]);
    forall j | 0 <= j < a ensures IsSpace(s[j]) { assert s[..a][j] == s[j]; }
    assert AllSpace(t[m..]);
    forall j | b <= j < |s| ensures IsSpace(s[j]) { assert t[m..][j - b] == s[j]; }
  }

  /** `\b` is unchanged by cutting the text at a position next to which there is no word character. */
  lemma BoundaryWindow(s: string, a: nat, b: nat, p: nat)
    requires a <= p <= b <= |s|
    requires p == a ==> p == 0 || !WordChar(s[p - 1])
    requires p == b ==> p == |s| || !WordChar(s[p])
    ensures Boundary(s[a..b], p - a) == Boundary(s, p)
  {
  }

  /** An AIMS_HEAD match in s is a match of any window of s outside which s is all whitespace. */
  lemma AimsHeadAtWindow(s: string, a: nat, b: nat, i: nat)
    requires a <= b <= |s| && i <= |s| && AimsHeadAt(s, i)
    requires forall j | 0 <= j < a :: IsSpace(s[j])
    requires forall j | b <= j < |s| :: IsSpace(s[j])
    ensures a <= i <= b && AimsHeadAt(s[a..b], i - a)
  {
    var e := SpecificAimEnd(s, i).value;
    SpecificAimChars(s, i);
    assert a <= i < e <= b;
    TwoWordWindow(s, a, b, i, "specific", "aim");
    BoundaryWindow(s, a, b, i);
    if !Boundary(s, e) {
      FoldLetterNotSpace(s[e]);
      BoundaryWindow(s, a, b, e + 1);
    } else {
      BoundaryWindow(s, a, b, e);
    }
  }

  /** Stripping surrounding whitespace keeps an AIMS_HEAD match. */
  lemma AimsHeadStrip(s: string)
    requires AimsHead(s)
    ensures AimsHead(Strip(s))
  {
    var i: nat :| i <= |s| && AimsHeadAt(s, i);
    var a, b := StripWindow(s);
    AimsHeadAtWindow(s, a, b, i);
    assert AimsHeadAt(Strip(s), i - a);
  }

  // ---------------------------------------------------------------------
  // What the matchers accept, on sample headings

  /** A run of exactly n characters of class cls at j, followed by one outside it or by the end. */
  lemma {:induction false} RunExactly(s: string, j: nat, n: nat, cls: CharClass)
    requires j + n <= |s|
    requires forall k | j <= k < j + n :: InClass(s[k], cls)
    requires j + n == |s| || !InClass(s[j + n], cls)
    ensures Run(s, j, cls) == n
    decreases n
  {
    if n > 0 {
      RunExactly(s, j + 1, n - 1, cls);
    }
  }

  /** "specific", g whitespace characters and "aim", letter by letter from i, make a `specific\s+aim` match. */
  lemma SpelledSpecificAim(s: string, i: nat, g: nat)
    requires i + 11 + g <= |s| && g > 0
    requires Fold(s[i]) == 's' && Fold(s[i + 1]) == 'p' && Fold(s[i + 2]) == 'e' && Fold(s[i + 3]) == 'c'
    requires Fold(s[i + 4]) == 'i' && Fold(s[i + 5]) == 'f' && Fold(s[i + 6]) == 'i' && Fold(s[i + 7]) == 'c'
    requires forall k | i + 8 <= k < i + 8 + g :: IsSpace(s[k])
    requires Fold(s[i + 8 + g]) == 'a' && Fold(s[i + 9 + g]) == 'i' && Fold(s[i + 10 + g]) == 'm'
    ensures SpecificAimEnd(s, i) == Some(i + 11 + g)
  {
    assert WordAt(s, i, "specific");
    FoldLetterNotSpace(s[i + 8 + g]);
    RunExactly(s, i + 8, g, Space);
    assert WordAt(s, i + 8 + g, "aim");
    TwoWordFrom(s, i, "specific", "aim", g);
  }

  /** A letter k of the first word that s does not have rules the STOP_HEAD alternative out. */
  lemma NotPhraseAt0(s: string, ws: seq<string>, k: nat)
    requires ws != [] && k < |ws[0]| && (k >= |s| || Fold(s[k]) != ws[0][k])
    ensures !StopPhraseAt0(s, ws)
  {
    if |ws[0]| <= |s| {
      assert Fold(s[0 + k]) != ws[0][k];
    }
  }

  lemma AimsHeadPlain()
    ensures AimsHead("Specific Aims")
  {
    var s := "Specific Aims";
    SpelledSpecificAim(s, 0, 1);
    assert AimsHeadAt(s, 0);
  }

  lemma AimsHeadTab()
    ensures AimsHead("SPECIFIC\tAIM:")
  {
    var s := "SPECIFIC\tAIM:";
    SpelledSpecificAim(s, 0, 1);
    assert AimsHeadAt(s, 0);
  }

  lemma AimsHeadInside()
    ensures AimsHead("1. Specific Aims")
  {
    var s := "1. Specific Aims";
    SpelledSpecificAim(s, 3, 1);
    assert AimsHeadAt(s, 3);
  }

  /** "approach", letter by letter, followed by a space matches the STOP_HEAD alternative "approach". */
  lemma ApproachAt0(s: string)
    requires |s| > 8 && s[8] == ' '
    requires Fold(s[0]) == 'a' && Fold(s[1]) == 'p' && Fold(s[2]) == 'p' && Fold(s[3]) == 'r'
    requires Fold(s[4]) == 'o' && Fold(s[5]) == 'a' && Fold(s[6]) == 'c' && Fold(s[7]) == 'h'
    ensures StopPhraseAt0(s, ["approach"])
  {
    assert WordAt(s, 0, "approach");
  }

  lemma AimsHeadApproachTo()
    ensures AimsHead("Approach to Specific Aims")
  {
    var s := "Approach to Specific Aims";
    SpelledSpecificAim(s, 12, 1);
    assert AimsHeadAt(s, 12);
  }

  lemma AimsHeadNoGap()
    ensures !AimsHead("SpecificAims")
  {
    var s := "SpecificAims";
    forall i: nat | i <= |s| ensures !AimsHeadAt(s, i) {
      if i == 0 {
        assert Run(s, 8, Space) == 0;
      } else if i <= 4 {
        assert Fold(s[i]) != 's';
      }
    }
  }

  lemma AimsHeadGlued()
    ensures !AimsHead("Specific Aimsx")
  {
    var s := "Specific Aimsx";
    SpelledSpecificAim(s, 0, 1);
    forall i: nat | i <= |s| ensures !AimsHeadAt(s, i) {
      if 0 < i <= 6 {
        assert Fold(s[i]) != 's';
      }
    }
  }

  /**
   * AIMS_HEAD is found in any case, across any whitespace and anywhere in the
   * text, but it needs the whitespace and a word boundary after "aim" or "aims".
   */
  lemma AimsHeadExamples()
    ensures AimsHead("Specific Aims") && AimsHead("SPECIFIC\tAIM:") && AimsHead("1. Specific Aims")
    ensures !AimsHead("SpecificAims") && !AimsHead("Specific Aimsx")
  {
    AimsHeadPlain();
    AimsHeadTab();
    AimsHeadInside();
    AimsHeadNoGap();
    AimsHeadGlued();
  }

  lemma SubheadShort()
    ensures AimSubhead("Aim 1", false)
  {
    var s := "Aim 1";
    assert WordAt(s, 0, "aim");
    RunExactly(s, 3, 1, Space);
    RunExactly(s, 4, 1, Digit);
    assert SubheadAt(s, 0, false);
  }

  lemma SubheadLong()
    ensures AimSubhead("Specific Aim 2", false)
  {
    var s := "Specific Aim 2";
    SpelledSpecificAim(s, 0, 1);
    RunExactly(s, 12, 1, Space);
    RunExactly(s, 13, 1, Digit);
    assert SubheadAt(s, 0, false);
  }

  lemma SubheadGluedAt(i: nat)
    requires i <= 6
    ensures !SubheadAt("Aim 1a", i, false)
  {
    if i == 0 {
      SubheadGluedNumber();
    } else if i <= 3 {
      assert Fold("Aim 1a"[i]) != 'a';
    }
  }

  /** In "Aim 1a" the digit run after "aim" is followed by a letter, so `\b` fails. */
  lemma SubheadGluedNumber()
    ensures !SubheadAt("Aim 1a", 0, false)
  {
    var s := "Aim 1a";
    assert WordAt(s, 0, "aim");
    RunExactly(s, 3, 1, Space);
    RunExactly(s, 4, 1, Digit);
  }

  lemma SubheadGlued()
    ensures !AimSubhead("Aim 1a", false)
  {
    forall i: nat | i <= 6 ensures !SubheadAt("Aim 1a", i, false) {
      SubheadGluedAt(i);
    }
  }

  /** AIM_SUBHEAD finds "aim" and a number, with or without "specific" before it, but not a number glued to a word. */
  lemma AimSubheadExamples()
    ensures AimSubhead("Aim 1", false) && AimSubhead("Specific Aim 2", false)
    ensures !AimSubhead("Aim 1a", false)
  {
    SubheadShort();
    SubheadLong();
    SubheadGlued();
  }

  lemma HeadingHash()
    ensures MarkdownHeading("# Aims")
  {
    RunExactly("# Aims", 0, 0, Space);
    RunExactly("# Aims", 0, 1, Hash);
  }

  lemma HeadingIndented()
    ensures MarkdownHeading("  ## Aims")
  {
    RunExactly("  ## Aims", 0, 2, Space);
    RunExactly("  ## Aims", 2, 2, Hash);
  }

  lemma HeadingGlued()
    ensures !MarkdownHeading("#Aims")
  {
    RunExactly("#Aims", 0, 0, Space);
    RunExactly("#Aims", 0, 1, Hash);
  }

  lemma HeadingBare()
    ensures !MarkdownHeading("#")
  {
    RunExactly("#", 0, 0, Space);
    RunExactly("#", 0, 1, Hash);
  }

  lemma HeadingInside()
    ensures !MarkdownHeading("Aim #1")
  {
    RunExactly("Aim #1", 0, 0, Space);
    RunExactly("Aim #1", 0, 0, Hash);
  }

  /** HEAD_RE needs hashes at the start, after optional whitespace, and whitespace after them. */
  lemma MarkdownHeadingExamples()
    ensures MarkdownHeading("# Aims") && MarkdownHeading("  ## Aims")
    ensures !MarkdownHeading("#Aims") && !MarkdownHeading("#") && !MarkdownHeading("Aim #1")
  {
    HeadingHash();
    HeadingIndented();
    HeadingGlued();
    HeadingBare();
    HeadingInside();
  }

  lemma WholePlain()
    ensures WholeSpecificAims("Specific Aims")
  {
    SpelledSpecificAim("Specific Aims", 0, 1);
  }

  lemma WholeNewline()
    ensures WholeSpecificAims("specific  aim\n")
  {
    SpelledSpecificAim("specific  aim\n", 0, 2);
  }

  lemma WholeColon()
    ensures !WholeSpecificAims("Specific Aims:")
  {
    SpelledSpecificAim("Specific Aims:", 0, 1);
  }

  lemma WholeNumbered()
    ensures !WholeSpecificAims("Specific Aim 1")
  {
    SpelledSpecificAim("Specific Aim 1", 0, 1);
  }

  /** The validation pattern takes the whole text, allowing only a final newline after it. */
  lemma WholeSpecificAimsExamples()
    ensures WholeSpecificAims("Specific Aims") && WholeSpecificAims("specific  aim\n")
    ensures !WholeSpecificAims("Specific Aims:") && !WholeSpecificAims("Specific Aim 1")
  {
    WholePlain();
    WholeNewline();
    WholeColon();
    WholeNumbered();
  }

  lemma PrefixPlain()
    ensures SpecificAimsPrefix("Specific Aims")
  {
    SpelledSpecificAim("Specific Aims", 0, 1);
  }

  lemma PrefixLonger()
    ensures SpecificAimsPrefix("Specific Aimless")
  {
    SpelledSpecificAim("Specific Aimless", 0, 1);
  }

  /** The TEI pattern is anchored at the start but has no boundary or end anchor. */
  lemma SpecificAimsPrefixExamples()
    ensures SpecificAimsPrefix("Specific Aims") && SpecificAimsPrefix("Specific Aimless")
    ensures !SpecificAimsPrefix("The Specific Aims")
  {
    PrefixPlain();
    PrefixLonger();
    assert Fold("The Specific Aims"[0]) != 's';
  }
}
