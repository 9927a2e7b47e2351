# Specific Aims extraction and ingestion: a Dafny model

This project models the text-processing core of the grantwriter scripts, which
turn NIH grant PDFs into Markdown and reviewed Markdown into JSONL rows:

- **Section segmentation** (`segment.dfy`, module `Segment`). One routine is
  shared by three scripts:
  - `scripts/01_unstructured_pdf_to_json.py` (module `GrantPdf`) renders the
    whole grant, then the Specific Aims page;
  - `scripts/unstructured_pdf_to_json.py` (module `UnstructuredPdf`) renders
    the Specific Aims page only;
  - `scripts/human_check_aims.py` (module `HumanCheck`) renders everything
    from the aims heading up to the next other Title.

  Each script is a `Config`:
  - which elements are headings;
  - how heading levels are chosen;
  - whether blank elements are skipped;
  - the stop rule;
  - whether leaving the start page ends the section.

  The scripts' loops are methods (`Render`, `FindStart`, `ExtractSection`),
  proved against the functions `Kept`, `RenderAll`, `FirstStart` and `Section`.
- **Regular expressions** (`patterns.dfy`, module `Patterns`): `AIMS_HEAD`,
  both variants of `AIM_SUBHEAD`, both `STOP_HEAD`s, `HEAD_RE`, and the
  validation and TEI patterns. Each is written out as the matcher it denotes.
- **Python string operations** (`text.dfy`, module `Text`):
  - `strip`, `rstrip`, `lstrip` and `isspace`;
  - `join`, `replace` and `splitlines`;
  - the file text every writer produces, `"\n".join(lines).rstrip() + "\n"`.
- **Heading validation** (`validate_aims.dfy`, module `ValidateAims`): the
  look-ahead loops of `scripts/validate_specific_aims.py` and their verdict.
- **TEI to Markdown** (`tei_markdown.dfy`, module `TeiMarkdown`):
  `tei_to_markdown` of `scripts/pdf_to_text.py`, over a list of head and
  paragraph nodes.
- **Paragraph reflow** (`reflow.dfy`, module `Reflow`):
  `squash_single_newlines` of `scripts/02_ingest_reviewed_aims.py`.
- **Reviewed-file ingestion** (`ingest.dfy`, module `IngestReviewed`):
  - `parse_markdown`;
  - the `grant_id` replace chain;
  - the loop in `main` that writes or skips rows and reports the file count.

`textwrap.fill(txt, 100)` is the parameter `fill`. An element whose text is
`None` carries the text `""`. The two PDF scripts read `el.text or ""`
(`scripts/01_unstructured_pdf_to_json.py` lines 94, 112 and 117;
`scripts/unstructured_pdf_to_json.py` lines 59 and 69). The scripts that read
JSON are covered under "Left out".

Some consequences of the code are easy to miss:

- Reflowing is not idempotent. `Reflow.NotIdempotent` shows that reflowing
  the lines of an already reflowed text adds empty paragraphs.
- `str.replace` removes every occurrence of a suffix token
  (`IngestReviewed.GrantIdRemovesAll`). Removing one occurrence can create a
  new one, so a `grant_id` can still contain a token
  (`IngestReviewed.GrantIdCanKeepToken`).
- The reported count is the number of files, skipped ones included
  (`IngestReviewed.ReportedCount`).
- In both PDF scripts the stop test runs before anything is taken, the start
  heading included. A start heading that STOP_HEAD also matches, such as
  "Approach to Specific Aims", ends the section at once. The aims page is
  then written with no lines, as a single newline (`GrantPdf.StopStartEmpty`,
  `UnstructuredPdf.StopStartEmpty`, `GrantPdf.StopStartExample`).
- "abstract" stops only `01_unstructured_pdf_to_json.py`, and "introduction"
  stops only `unstructured_pdf_to_json.py`
  (`UnstructuredPdf.AbstractStopsOnlyThere`,
  `UnstructuredPdf.StopTitleExamples`).

## Model

| member | source | states |
|---|---|---|
| Text.Strip | scripts/01_unstructured_pdf_to_json.py:94 | `str.strip()` is empty exactly when the text is all whitespace; otherwise it starts and ends with a non-whitespace character and is no longer than the text |
| Text.FileText | scripts/01_unstructured_pdf_to_json.py:104 | the written text ends in exactly one newline with no whitespace before it; without that newline it is a prefix of the joined lines, and only whitespace was dropped |
| Text.Replace | scripts/02_ingest_reviewed_aims.py:83-85 | replacing a token by "" never makes the text longer |
| Text.ReplaceAbsent | scripts/02_ingest_reviewed_aims.py:83-85 | replacing a token that does not occur leaves the text unchanged |
| Text.SplitLines | scripts/02_ingest_reviewed_aims.py:52 | no line it yields contains a line break, and it yields no lines exactly for the empty text |
| Text.SplitJoin | scripts/02_ingest_reviewed_aims.py:52 | `splitlines` undoes `"\n".join` for lines without breaks whose last line is not empty |
| Patterns.AimsHeadExamples | scripts/01_unstructured_pdf_to_json.py:31 | AIMS_HEAD, `(?i)\bspecific\s+aims?\b` searched anywhere: it finds "Specific Aims", "SPECIFIC\tAIM:" and "1. Specific Aims", but not "SpecificAims" (no `\s+`) or "Specific Aimsx" (no `\b` after "aim" or "aims") |
| Patterns.AimSubheadExamples | scripts/01_unstructured_pdf_to_json.py:32 | AIM_SUBHEAD, the alternatives `(?i)\b(?:specific\s+)?aim\s*\d+\b` and `\baim\s*\d+\b` searched: it finds "Aim 1" and "Specific Aim 2", but not "Aim 1a", where the greedy digit run is not followed by `\b` |
| Patterns.MarkdownHeadingExamples | scripts/02_ingest_reviewed_aims.py:25 | HEAD_RE, `^\s*#+\s` matched at the start: it accepts "# Aims" and "  ## Aims", and rejects "#Aims" and "#" (no whitespace after the hashes) and "Aim #1" (hashes not at the start) |
| Patterns.WholeSpecificAimsExamples | scripts/validate_specific_aims.py:9 | `(?i)^specific\s+aims?$`: it accepts "Specific Aims" and "specific  aim\n" (`$` also matches before a final newline), and rejects "Specific Aims:" and "Specific Aim 1" |
| Patterns.SpecificAimsPrefixExamples | scripts/pdf_to_text.py:57 | `re.match(r"(?i)specific\s+aims?", text)` has no end anchor and no `\b`: it accepts "Specific Aims" and "Specific Aimless", and rejects "The Specific Aims" |
| Patterns.AimsHeadNotBlank | scripts/01_unstructured_pdf_to_json.py:112 | a text in which AIMS_HEAD finds a match is never blank |
| Patterns.AimsHeadStrip | scripts/01_unstructured_pdf_to_json.py:112-125 | a match of AIMS_HEAD in the raw text is still a match in the stripped text |
| Segment.DepthLevel | scripts/01_unstructured_pdf_to_json.py:98 | the level is at most 4; an absent or zero depth gives 1; a depth of 1 to 4 is kept as it is |
| Segment.IsTitleExamples | scripts/01_unstructured_pdf_to_json.py:50-52 | `is_title` compares the whole lower-cased category with "title" and "header": it accepts "Title" and "HEADER", and rejects "NarrativeText" and "Titles" |
| Segment.IsTitleCategoryExamples | scripts/human_check_aims.py:19 | `e["type"].startswith("Title")` is case-sensitive and tests only a prefix: it accepts "Title" and "TitleBlock", and rejects "title" and "Header" |
| Segment.LineShape | scripts/01_unstructured_pdf_to_json.py:97-101 | a heading line is at most four "#", a space and the stripped text; any other element's line is `fill` of its stripped text |
| Segment.Render | scripts/01_unstructured_pdf_to_json.py:92-102 | the loop emits the rendering of exactly the elements that are not skipped, in order |
| Segment.RenderAllAt | scripts/01_unstructured_pdf_to_json.py:93-102 | entry 2k is element k's content line and entry 2k+1 is the blank spacer |
| Segment.KeptMembers | scripts/01_unstructured_pdf_to_json.py:94-96 | the rendered elements are exactly the input elements whose stripped text is non-empty |
| Segment.KeptAll | scripts/human_check_aims.py:27-39 | when blanks are not skipped, every element is rendered |
| Segment.KeptHead | scripts/01_unstructured_pdf_to_json.py:93-96 | a first element that is not blank is rendered first |
| Segment.TieredLine | scripts/01_unstructured_pdf_to_json.py:124-128 | an aims-page heading reads "## " and its stripped text when AIMS_HEAD or AIM_SUBHEAD finds it, and "### " and its stripped text otherwise |
| Segment.TopLine | scripts/human_check_aims.py:34-36 | a promoted Title reads "# " and its stripped text |
| Segment.FirstStart | scripts/01_unstructured_pdf_to_json.py:110-114 | there is no result exactly when no heading matches AIMS_HEAD; otherwise the result is the first index holding such a heading |
| Segment.FindStart | scripts/01_unstructured_pdf_to_json.py:111-114 | the search loop with its `break` returns that first index |
| Segment.ExtractSection | scripts/01_unstructured_pdf_to_json.py:116-131 | the collect loop emits the rendering of `Section`, the elements the scan (`ScanTo`, one `StepAt` per element) takes: it skips blanks and stops at a stop heading or a page change |
| Segment.StartStops | scripts/01_unstructured_pdf_to_json.py:116-121 | a non-blank start heading that is also a stop heading ends its own section: the scan takes nothing |
| Segment.StoppedStays | scripts/01_unstructured_pdf_to_json.py:120-123 | after a `break`, later elements change nothing |
| Segment.ScanRunning | scripts/01_unstructured_pdf_to_json.py:116-131 | until the scan stops, it has taken exactly the non-skipped elements it passed |
| Segment.ScanHalted | scripts/01_unstructured_pdf_to_json.py:120-123 | a stopped scan halted at some element m, having taken the non-skipped elements before m |
| Segment.SectionShape | scripts/01_unstructured_pdf_to_json.py:116-131 | the section is the non-skipped elements from the start, up to the end or up to the element where the scan halts; none of its elements is blank, a stop heading or on another page |
| Segment.SectionRun | scripts/human_check_aims.py:27-39 | without blank skipping, the section is a contiguous run; it ends at the end of the list or just before the element where the scan halts |
| Segment.SectionFirst | scripts/01_unstructured_pdf_to_json.py:116-131 | a start heading that the scan takes is the first element of the section |
| Segment.AimsOutput | scripts/01_unstructured_pdf_to_json.py:115-136 | the aims lines are absent exactly when no heading matches AIMS_HEAD |
| Segment.ExtractAims | scripts/01_unstructured_pdf_to_json.py:109-131 | the start search followed by the collect loop computes those aims lines |
| GrantPdf.StopStartEmpty | scripts/01_unstructured_pdf_to_json.py:111-133 | when STOP_HEAD matches the stripped start heading, the aims lines are empty and the aims page is "\n"; the other half of `AimsFirstLine` |
| GrantPdf.StopStartExample | scripts/01_unstructured_pdf_to_json.py:31-37 | "Approach to Specific Aims" is found by AIMS_HEAD and matched by STOP_HEAD, so such a start heading exists |
| GrantPdf.StopTitleExamples | scripts/01_unstructured_pdf_to_json.py:34-37 | STOP_HEAD, matched at the start with `\b` after the word: "Significance", "RESEARCH  STRATEGY" and "Approach: overview" stop the page; "Approaches" and "Specific Aims" do not |
| GrantPdf.AimsFile | scripts/01_unstructured_pdf_to_json.py:115-136 | the aims file is written exactly when a start heading exists |
| GrantPdf.ExtractPdf | scripts/01_unstructured_pdf_to_json.py:92-136 | the whole-grant text renders every non-blank element; the aims text is present exactly when there is a start heading, and is its section's rendering |
| GrantPdf.WholeDocLines | scripts/01_unstructured_pdf_to_json.py:93-102 | the whole-grant lines come in pairs, one pair per non-blank element in order; a heading line is "#" repeated min(4, depth or 1) times, a space and the text; a paragraph line is the wrapped text |
| GrantPdf.AimsLines | scripts/01_unstructured_pdf_to_json.py:116-131 | each aims element is non-blank and on the start page when that page is known; it renders as "## ", "### " or the wrapped text, followed by "" |
| GrantPdf.AimsFirstLine | scripts/01_unstructured_pdf_to_json.py:111-126 | unless the start heading matches STOP_HEAD, the aims page opens with "## " and the start heading's stripped text |
| UnstructuredPdf.ExtractPdf | scripts/unstructured_pdf_to_json.py:57-89 | no page is written exactly when no heading matches AIMS_HEAD; otherwise the page is the rendered section |
| UnstructuredPdf.AimsLines | scripts/unstructured_pdf_to_json.py:67-86 | each element is non-blank and on the start page; headings render at level 2 or 3, other elements as the wrapped text, each followed by "" |
| UnstructuredPdf.StopStartEmpty | scripts/unstructured_pdf_to_json.py:58-88 | when STOP_HEAD matches the stripped start heading, the section is empty and the page written is "\n" |
| UnstructuredPdf.StopStartExample | scripts/unstructured_pdf_to_json.py:29-35 | "Approach to Specific Aims" is found by AIMS_HEAD and matched by this script's STOP_HEAD too |
| UnstructuredPdf.StopTitleExamples | scripts/unstructured_pdf_to_json.py:32-35 | this STOP_HEAD stops at "Significance" and "Introduction", but not at "Abstract" or "Approaches" |
| UnstructuredPdf.AbstractStopsOnlyThere | scripts/unstructured_pdf_to_json.py:32-35 | a heading "Abstract" stops the aims page of 01_unstructured_pdf_to_json.py but not of this script |
| UnstructuredPdf.PluralSubheadOnlyHere | scripts/unstructured_pdf_to_json.py:30 | "Aims 2" is a level-2 subheading in this script and a level-3 heading in 01_unstructured_pdf_to_json.py |
| HumanCheck.CheckAims | scripts/human_check_aims.py:15-44 | the script exits with an error exactly when no Title matches the pattern; otherwise it writes the rendered section |
| HumanCheck.SectionBounds | scripts/human_check_aims.py:27-39 | the section starts at the aims heading and runs to the first later Title the pattern does not find, which is excluded; matching Titles in between are kept |
| HumanCheck.HumanStep | scripts/human_check_aims.py:30-32 | the loop breaks exactly at a non-matching Title once something was emitted |
| HumanCheck.OutputLines | scripts/human_check_aims.py:34-39 | every Title renders as "# " and its stripped text, any other element as its wrapped stripped text, each followed by "" |
| HumanCheck.StartFirst | scripts/human_check_aims.py:18-36 | the output opens with "# " and the aims heading's stripped text |
| ValidateAims.WindowEnd | scripts/validate_specific_aims.py:11 | the look-ahead ends at i+6 or at the end of the list, whichever comes first |
| ValidateAims.Flags | scripts/validate_specific_aims.py:9-15 | element i is flagged exactly when it is an aims heading with no paragraph in its window |
| ValidateAims.LookAhead | scripts/validate_specific_aims.py:11-13 | the inner loop breaks exactly when some element in the window is a non-blank element that is not of type Title or Section |
| ValidateAims.FindMissing | scripts/validate_specific_aims.py:7-15 | `missing` is the flagged indices in increasing order |
| ValidateAims.IndicesHas | scripts/validate_specific_aims.py:7-15 | an index is collected exactly when its flag is set |
| ValidateAims.IndicesIncreasing | scripts/validate_specific_aims.py:7-15 | the collected indices are strictly increasing |
| ValidateAims.MissingSpec | scripts/validate_specific_aims.py:7-15 | `missing` holds exactly the flagged indices and is strictly increasing |
| ValidateAims.LastHeadingFlagged | scripts/validate_specific_aims.py:11-15 | an aims heading at the last index is always reported, because its window is empty |
| ValidateAims.WindowOfFive | scripts/validate_specific_aims.py:11 | at most five elements are examined, and cutting the list after the window does not change the verdict on i |
| ValidateAims.Validate | scripts/validate_specific_aims.py:17-20 | success is reported exactly when no index is flagged; otherwise the flagged indices are reported |
| TeiMarkdown.LeadingDivs | scripts/pdf_to_text.py:62-65 | it counts the consecutive div ancestors from the parent up, and the ancestor after them is not a div |
| TeiMarkdown.DivDepth | scripts/pdf_to_text.py:61-66 | the parent walk returns 1 plus the number of consecutive div ancestors, capped at 4 |
| TeiMarkdown.HeadDepth | scripts/pdf_to_text.py:57-66 | the depth is between 1 and 4; a head starting with "specific aim(s)" gets 1, any other head gets the div depth |
| TeiMarkdown.NodeLine | scripts/pdf_to_text.py:55-69 | a head renders as "#" repeated depth times, a space and its text; a paragraph renders as its text, unwrapped |
| TeiMarkdown.OutputPair | scripts/pdf_to_text.py:50-71 | every pair of output entries comes from a non-blank node: its line, then "" |
| TeiMarkdown.NodeStep | scripts/pdf_to_text.py:50-71 | a blank node adds nothing; any other node adds its line and "" |
| TeiMarkdown.NodeText | scripts/pdf_to_text.py:55-69 | the head branch with its depth computation and the paragraph branch compute the node's line |
| TeiMarkdown.TeiToMarkdown | scripts/pdf_to_text.py:49-73 | the result is the file text of the lines of the non-blank nodes, in document order |
| Reflow.DropLeading | scripts/02_ingest_reviewed_aims.py:41-42 | the pop(0) loop removes exactly the leading empty paragraphs |
| Reflow.DropTrailing | scripts/02_ingest_reviewed_aims.py:43-44 | the pop() loop removes exactly the trailing empty paragraphs |
| Reflow.SquashSingleNewlines | scripts/02_ingest_reviewed_aims.py:28-45 | the sentinel loop and both pop loops compute `Squash`: the lines fed one by one through `Feed`, trimmed of empty paragraphs at both ends and joined with "\n\n" |
| Reflow.ParagraphCount | scripts/02_ingest_reviewed_aims.py:32-37 | every blank line adds exactly one paragraph, and no other line adds one |
| Reflow.PendingRun | scripts/02_ingest_reviewed_aims.py:32-39 | after `Feed` has taken every line, the buffer holds the stripped non-blank lines since the last blank line |
| Reflow.PendingOfRun | scripts/02_ingest_reviewed_aims.py:32-39 | after a blank line (or at the start) the buffer of a run of non-blank lines is exactly those lines, stripped |
| Reflow.TwoBlanksBetween | scripts/02_ingest_reviewed_aims.py:31-39 | two stripped lines separated by two blank lines give the paragraphs a, "" and b |
| Reflow.ThreeBlanksBetween | scripts/02_ingest_reviewed_aims.py:31-39 | separated by three blank lines they give a, "", "" and b |
| Reflow.RunKeepsParagraphs | scripts/02_ingest_reviewed_aims.py:38-39 | non-blank lines add no paragraph |
| Reflow.RunFlushed | scripts/02_ingest_reviewed_aims.py:31-39 | a maximal run of non-blank lines closed by a blank line becomes one paragraph: the lines, stripped and joined with single spaces |
| Reflow.BlankAfterBlank | scripts/02_ingest_reviewed_aims.py:36-37 | a blank line with nothing pending adds an empty paragraph |
| Reflow.Trimmed | scripts/02_ingest_reviewed_aims.py:41-45 | the joined paragraphs never begin or end with an empty paragraph, and the text is "" exactly when no paragraph is left |
| Reflow.AllBlank | scripts/02_ingest_reviewed_aims.py:31-45 | empty or all-blank input gives "" |
| Reflow.NotIdempotent | scripts/02_ingest_reviewed_aims.py:36-45 | "a", two blank lines and "b" reflow to "a\n\n\n\nb"; splitting that text into lines and reflowing again gives "a\n\n\n\n\n\nb" |
| IngestReviewed.ParseMarkdown | scripts/02_ingest_reviewed_aims.py:48-62 | the loop computes `Parse`, which is `parse_markdown`: the heading and body lines of the right-stripped file, the heading join and the reflowed body |
| IngestReviewed.PickPartition | scripts/02_ingest_reviewed_aims.py:52-56 | every line goes to exactly one of the heading and body lists |
| IngestReviewed.PickMembers | scripts/02_ingest_reviewed_aims.py:52-56 | a list holds exactly the right-stripped lines whose HEAD_RE test selects it |
| IngestReviewed.StrippedHeading | scripts/02_ingest_reviewed_aims.py:53-56 | right-stripping never turns a line into a heading line |
| IngestReviewed.BodyHasNoHeading | scripts/02_ingest_reviewed_aims.py:53-56 | no body line matches HEAD_RE |
| IngestReviewed.HeadingEmpty | scripts/02_ingest_reviewed_aims.py:52-59 | the heading is "" exactly when no line of the file matches HEAD_RE |
| IngestReviewed.RawText | scripts/02_ingest_reviewed_aims.py:49 | `raw_md` is the file text, as `read_text` returns it, with only its trailing whitespace removed |
| IngestReviewed.ShapeParse | scripts/02_ingest_reviewed_aims.py:48-62 | for a heading line, a blank line, a paragraph on two lines, a blank line and a one-line paragraph: the heading is the heading line, the text joins the two lines with a space and separates the paragraphs by one blank line, and `raw_md` is the file |
| IngestReviewed.ExampleParse | scripts/02_ingest_reviewed_aims.py:48-62 | "# Specific Aims\n\nLine one\nstill line one.\n\nLine two." gives the heading "# Specific Aims" and the text "Line one still line one.\n\nLine two." |
| IngestReviewed.GrantId | scripts/02_ingest_reviewed_aims.py:82-86 | the id is the stem with the three suffixes removed by `str.replace`, and it is never longer than the stem |
| IngestReviewed.GrantIdUntouched | scripts/02_ingest_reviewed_aims.py:82-86 | a stem containing none of the tokens is its own grant id |
| IngestReviewed.GrantIdRemovesAll | scripts/02_ingest_reviewed_aims.py:82-86 | every occurrence of a token is removed: "_aims_aims" gives "" |
| IngestReviewed.GrantIdCanKeepToken | scripts/02_ingest_reviewed_aims.py:82-86 | removing "_aims" can create a new "_aims": "_ai_aimsms" gives "_aims" |
| IngestReviewed.RowOf | scripts/02_ingest_reviewed_aims.py:77-93 | a file is skipped exactly when its reflowed text is empty; otherwise its row has that non-empty text, the section name, the grant id of its stem and the right-stripped file as `raw_md` |
| IngestReviewed.IngestFile | scripts/02_ingest_reviewed_aims.py:77-93 | a file yields no row when its reflowed text is empty; otherwise it yields the row with its grant id, the section name and its parts |
| IngestReviewed.Ingest | scripts/02_ingest_reviewed_aims.py:71-95 | an empty file list ends the run; otherwise the rows are those of the files that are not skipped, in file order, and the reported count is the number of files |
| IngestReviewed.RowsShape | scripts/02_ingest_reviewed_aims.py:78-92 | every row written has non-empty text and the section "Specific Aims" |
| IngestReviewed.RowsMembers | scripts/02_ingest_reviewed_aims.py:76-93 | a row is written exactly for each file that is not skipped, and it is that file's row |
| IngestReviewed.ReportedCount | scripts/02_ingest_reviewed_aims.py:71-95 | the rows written plus the files skipped make up every file, so the reported count exceeds the rows exactly when a file was skipped |

## Left out

- The parsers are not modelled: `partition_pdf`, the GROBID request, the lxml parse with its XPath query, and `itertext`. Their results are the inputs: an element list, or a list of TEI nodes, each with its tag, its joined text and its ancestors' tags.
- Every file read and write, `mkdir`, the JSON and YAML dumps, the `print` messages and the command-line argument checks. The observable results are modelled instead: the Markdown text, `Option`/`Outcome` values for "no file written" and for `sys.exit`, and the row list.
- The metadata part of `01_unstructured_pdf_to_json.py` is not modelled: `META_PATTERNS`, `sha256_of` and the `datetime` timestamp. It does not feed the Markdown.
- `textwrap.fill(txt, 100)` is the parameter `fill`. Wrapping is a library algorithm outside these scripts.
- `sorted(reviewed_dir.glob("*.md"))`: `Ingest` takes the files in the order given. Sorting and globbing belong to the file system and the library.
- Regular expressions use ASCII for `\w`, `\d`, `\b` and case-insensitive matching. `str.lower` on a category is ASCII lower-casing (`AsciiLower`). Python uses Unicode for all of these. `\s` and `str.strip` do use Python's full whitespace set.
- Byte decoding and the newline translation of `Path.read_text` are not modelled: a file's `content` is the text as `read_text` returns it, with "\r\n" and "\r" already turned into "\n".
- The crashes the scripts would hit are not modelled: a JSON element without `type` or `text`, or a `null` text in `human_check_aims.py` and `validate_specific_aims.py`. There, text is always a string.
- The rest of `pdf_to_text.py` is not part of this model: the GROBID call and the command line.
