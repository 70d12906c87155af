/**
 * The report writer: a markdown-subset renderer that moves a vertical
 * cursor down the pages of a jsPDF document, the fixed layout of the
 * targeted report (header, four sections, page-numbered footers) and the
 * name the file is saved under.
 *
 * Lengths are in the document's units (millimetres for jsPDF's default A4)
 * and are modelled as integers. jsPDF's `splitTextToSize` is a parameter
 * `wrap`: the number of lines a text breaks into at a given width.
 */
module PdfUtils {
  import opened Common
  import opened Text
  import opened Types

  /**
   * What was drawn, and on which page. `DrawText` carries the text before
   * wrapping and the width it was wrapped to (`None` for a single line);
   * `Centered` is centred at half the page width.
   */
  datatype Op =
    | DrawText(page: nat, x: int, y: int, text: string, wrapWidth: Option<int>)
    | Line(page: nat, x1: int, y1: int, x2: int, y2: int)
    | Centered(page: nat, y: int, text: string)

  /** The document's pages and drawing so far, together with the layout cursor. */
  datatype Layout = Layout(pageCount: nat, page: nat, ops: seq<Op>, y: int)

  /** A jsPDF document: its page size, its pages, the page being drawn on, and what has been drawn. */
  class PdfDocument {
    const pageHeight: int
    const pageWidth: int
    var pageCount: nat
    var currentPage: nat
    var ops: seq<Op>

    ghost predicate Valid()
      reads this
    {
      1 <= currentPage <= pageCount
    }

    /** The document with the cursor at `y`. */
    function State(y: int): (l: Layout)
      reads this
      ensures l.y == y && l.ops == ops
    {
      Layout(pageCount, currentPage, ops, y)
    }

    /** `new jsPDF()`: one empty page. */
    constructor (height: int, width: int)
      ensures Valid() && pageHeight == height && pageWidth == width
      ensures pageCount == 1 && currentPage == 1 && ops == []
    {
      pageHeight, pageWidth := height, width;
      pageCount, currentPage, ops := 1, 1, [];
    }

    /** `addPage()`: a new last page, which becomes the current one. */
    method AddPage()
      requires Valid()
      modifies this
      ensures Valid()
      ensures pageCount == old(pageCount) + 1 && currentPage == pageCount && ops == old(ops)
    {
      pageCount := pageCount + 1;
      currentPage := pageCount;
    }

    /** `setPage(n)`. */
    method SetPage(n: nat)
      requires Valid() && 1 <= n <= pageCount
      modifies this
      ensures Valid()
      ensures currentPage == n && pageCount == old(pageCount) && ops == old(ops)
    {
      currentPage := n;
    }

    /** `text(t, x, y)`, or `text(splitTextToSize(t, w), x, y)` when `wrapWidth` is `Some(w)`. */
    method Text(x: int, y: int, t: string, wrapWidth: Option<int>)
      requires Valid()
      modifies this
      ensures Valid() && pageCount == old(pageCount) && currentPage == old(currentPage)
      ensures ops == old(ops) + [DrawText(currentPage, x, y, t, wrapWidth)]
    {
      ops := ops + [DrawText(currentPage, x, y, t, wrapWidth)];
    }

    /** `line(x1, y1, x2, y2)`. */
    method DrawLine(x1: int, y1: int, x2: int, y2: int)
      requires Valid()
      modifies this
      ensures Valid() && pageCount == old(pageCount) && currentPage == old(currentPage)
      ensures ops == old(ops) + [Line(currentPage, x1, y1, x2, y2)]
    {
      ops := ops + [Line(currentPage, x1, y1, x2, y2)];
    }

    /** `text(t, pageWidth / 2, y, { align: 'center' })`. */
    method TextCentered(y: int, t: string)
      requires Valid()
      modifies this
      ensures Valid() && pageCount == old(pageCount) && currentPage == old(currentPage)
      ensures ops == old(ops) + [Centered(currentPage, y, t)]
    {
      ops := ops + [Centered(currentPage, y, t)];
    }
  }

  // ---------------------------------------------------------------------
  // Lines of markdown
  // ---------------------------------------------------------------------

  /** The four ways a trimmed line is rendered; `body` is what follows the two-character marker. */
  datatype LineKind = Heading(body: string) | Bullet(body: string) | BodyText(text: string) | Blank

  /**
   * The tests of the renderer, in their order: `# ` first, then `* ` or
   * `- `, then any non-empty line; an empty line is blank.
   */
  function Classify(t: string): (k: LineKind)
    ensures k.Heading? <==> StartsWith(t, "# ")
    ensures k.Bullet? <==> !StartsWith(t, "# ") && (StartsWith(t, "* ") || StartsWith(t, "- "))
    ensures k.BodyText? <==> !StartsWith(t, "# ") && !StartsWith(t, "* ") && !StartsWith(t, "- ") && t != []
    ensures k.Blank? <==> t == []
    ensures (k.Heading? || k.Bullet?) ==> k.body == t[2..]
    ensures k.BodyText? ==> k.text == t
  {
    if StartsWith(t, "# ") then Heading(t[2..])
    else if StartsWith(t, "* ") || StartsWith(t, "- ") then Bullet(t[2..])
    else if t != [] then BodyText(t)
    else Blank
  }

  /** Only the exact two-character markers count: a second `#` or a typographic bullet makes body text. */
  lemma ClassifyExamples()
    ensures Classify("## Scope") == BodyText("## Scope")
    ensures Classify("• item") == BodyText("• item")
    ensures Classify("#Scope") == BodyText("#Scope")
    ensures Classify("- item") == Bullet("item")
  {
    assert "## Scope"[..2] == "##";
    assert "• item"[..2] == "• ";
    assert "#Scope"[..2] == "#S";
    assert "- item"[..2] == "- ";
  }

  /** A source line renders as blank exactly when it is nothing but white space. */
  lemma BlankIffAllSpace(line: string)
    ensures Classify(Trim(line)).Blank? <==> AllSpace(line)
  {
    TrimEmptyIffAllSpace(line);
  }

  /** The page-break rule: past `limit`, a new page is added and the cursor returns to `top`. */
  function BreakPage(l: Layout, limit: int, top: int): Layout
  {
    if l.y > limit then l.(pageCount := l.pageCount + 1, page := l.pageCount + 1, y := top) else l
  }

  /** What one line draws with the cursor at `y`, the line wrapped to `width` at `x`. */
  function LineOps(kind: LineKind, page: nat, x: int, y: int, width: int): seq<Op>
  {
    match kind
    case Heading(body) => [DrawText(page, x, y, body, Some(width))]
    case Bullet(body) => [DrawText(page, x, y, "•", None), DrawText(page, x + 5, y, body, Some(width - 5))]
    case BodyText(text) => [DrawText(page, x, y, text, Some(width))]
    case Blank => []
  }

  /** The font a wrapped line is set in: `setFontSize` and the bold or normal `setFont`. */
  datatype Font = Font(size: nat, bold: bool)

  /** A heading line: 16 bold. */
  const HeadingFont := Font(16, true)

  /** A bullet or body line: 11 normal. */
  const BodyFont := Font(11, false)

  /**
   * jsPDF's `splitTextToSize`, reduced to what the layout uses: the number
   * of lines a text takes when wrapped to a width in the current font.
   */
  type Wrapper = (string, int, Font) -> nat

  /** How far one line moves the cursor down. */
  function LineAdvance(kind: LineKind, width: int, wrap: Wrapper): int
  {
    match kind
    case Heading(body) => wrap(body, width, HeadingFont) * 7 + 4
    case Bullet(body) => wrap(body, width - 5, BodyFont) * 5 + 2
    case BodyText(text) => wrap(text, width, BodyFont) * 5 + 2
    case Blank => 5
  }

  /** The class of each line, once trimmed. */
  function LineKinds(lines: seq<string>): (r: seq<LineKind>)
    ensures |r| == |lines| && forall i :: 0 <= i < |lines| ==> r[i] == Classify(Trim(lines[i]))
  {
    seq(|lines|, i requires 0 <= i < |lines| => Classify(Trim(lines[i])))
  }

  /** A line of the given class drawn at the cursor, which then moves down by the line's advance. */
  function PlaceLine(l: Layout, kind: LineKind, x: int, width: int, wrap: Wrapper): Layout
  {
    Layout(l.pageCount, l.page, l.ops + LineOps(kind, l.page, x, l.y, width), l.y + LineAdvance(kind, width, wrap))
  }

  /** One iteration of the renderer's loop: the page-break check, then a line of the given class. */
  function RenderLine(l: Layout, kind: LineKind, height: int, x: int, width: int, wrap: Wrapper): Layout
  {
    PlaceLine(BreakPage(l, height - 20, 20), kind, x, width, wrap)
  }

  /** The renderer's loop over the classified lines, in order. */
  function RenderLines(l: Layout, kinds: seq<LineKind>, height: int, x: int, width: int, wrap: Wrapper): Layout
  {
    if kinds == [] then l
    else RenderLine(RenderLines(l, kinds[..|kinds| - 1], height, x, width, wrap), kinds[|kinds| - 1], height, x, width, wrap)
  }

  /** `renderMarkdownToPdf` on a document in state `l`. */
  function Render(l: Layout, markdown: string, height: int, x: int, width: int, wrap: Wrapper): Layout
  {
    RenderLines(l, LineKinds(SplitLines(markdown)), height, x, width, wrap)
  }

  /**
   * The page-break check before a line adds exactly one page, and puts the
   * line at 20, when the cursor is below `height - 20`, and adds none
   * otherwise; the cursor then moves down by the line's advance, which is
   * 7k+4 for a heading, 5k+2 for a bullet or body line wrapped into k lines
   * and 5 for a blank line.
   */
  lemma RenderLineBreak(l: Layout, kind: LineKind, height: int, x: int, width: int, wrap: Wrapper)
    ensures var r := RenderLine(l, kind, height, x, width, wrap);
      var drawnAt := if l.y > height - 20 then 20 else l.y;
      && (l.y > height - 20 ==> r.pageCount == l.pageCount + 1 && r.page == r.pageCount)
      && (l.y <= height - 20 ==> r.pageCount == l.pageCount && r.page == l.page)
      && match kind
         case Heading(body) => r.y == drawnAt + 7 * wrap(body, width, HeadingFont) + 4
         case Bullet(body) => r.y == drawnAt + 5 * wrap(body, width - 5, BodyFont) + 2
         case BodyText(text) => r.y == drawnAt + 5 * wrap(text, width, BodyFont) + 2
         case Blank => r.y == drawnAt + 5
  {
  }

  /**
   * A bullet line draws its glyph at `x` and its text, wrapped to
   * `width - 5`, at `x + 5`, both at the line's height.
   */
  lemma BulletPlacement(l: Layout, line: string, height: int, x: int, width: int, wrap: Wrapper)
    requires Classify(Trim(line)).Bullet?
    ensures var r := RenderLine(l, Classify(Trim(line)), height, x, width, wrap);
      var b := BreakPage(l, height - 20, 20);
      r.ops == l.ops + [DrawText(b.page, x, b.y, "•", None),
                        DrawText(b.page, x + 5, b.y, Classify(Trim(line)).body, Some(width - 5))]
  {
  }

  /** Ops are only ever appended: what was drawn before stays as a prefix. */
  lemma {:induction false} RenderAppends(l: Layout, kinds: seq<LineKind>, height: int, x: int, width: int, wrap: Wrapper)
    ensures var r := RenderLines(l, kinds, height, x, width, wrap);
      |l.ops| <= |r.ops| && r.ops[..|l.ops|] == l.ops
  {
    if kinds != [] {
      var m := RenderLines(l, kinds[..|kinds| - 1], height, x, width, wrap);
      RenderAppends(l, kinds[..|kinds| - 1], height, x, width, wrap);
      var r := RenderLine(m, kinds[|kinds| - 1], height, x, width, wrap);
      assert r.ops[..|m.ops|] == m.ops;
      assert r.ops[..|l.ops|] == m.ops[..|l.ops|];
    }
  }

  /** The renderer adds at most one page per source line, and never takes one away. */
  lemma {:induction false} RenderPageBound(l: Layout, kinds: seq<LineKind>, height: int, x: int, width: int, wrap: Wrapper)
    ensures var r := RenderLines(l, kinds, height, x, width, wrap);
      l.pageCount <= r.pageCount <= l.pageCount + |kinds|
  {
    if kinds != [] {
      RenderPageBound(l, kinds[..|kinds| - 1], height, x, width, wrap);
    }
  }

  /** Each op is on a page no later than the next, and none is past `page`. */
  predicate PagesOrdered(ops: seq<Op>, page: nat)
  {
    && (forall i, j :: 0 <= i < j < |ops| ==> ops[i].page <= ops[j].page)
    && (forall i :: 0 <= i < |ops| ==> ops[i].page <= page)
  }

  /**
   * Drawing always happens on the last page: when the document is on its
   * last page with its ops in page order, it stays so however many lines
   * are rendered.
   */
  lemma {:induction false} RenderOnLastPage(l: Layout, kinds: seq<LineKind>, height: int, x: int, width: int, wrap: Wrapper)
    requires l.page == l.pageCount && PagesOrdered(l.ops, l.page)
    ensures var r := RenderLines(l, kinds, height, x, width, wrap);
      r.page == r.pageCount && PagesOrdered(r.ops, r.page)
  {
    if kinds != [] {
      var m := RenderLines(l, kinds[..|kinds| - 1], height, x, width, wrap);
      RenderOnLastPage(l, kinds[..|kinds| - 1], height, x, width, wrap);
      var b := BreakPage(m, height - 20, 20);
      assert PagesOrdered(b.ops, b.page);
      var kind := kinds[|kinds| - 1];
      AppendOnPage(b.ops, LineOps(kind, b.page, x, b.y, width), b.page);
    }
  }

  lemma AppendOnPage(ops: seq<Op>, more: seq<Op>, page: nat)
    requires PagesOrdered(ops, page)
    requires forall i :: 0 <= i < |more| ==> more[i].page == page
    ensures PagesOrdered(ops + more, page)
  {
    var all := ops + more;
    forall i, j | 0 <= i < j < |all| ensures all[i].page <= all[j].page {
      if j >= |ops| {
        assert all[j] == more[j - |ops|];
      }
    }
  }

  /** The height at which an op is drawn. */
  function OpY(op: Op): int
  {
    match op
    case DrawText(_, _, y, _, _) => y
    case Line(_, _, y1, _, _) => y1
    case Centered(_, y, _) => y
  }

  /**
   * Every line the renderer draws is above the bottom margin: at most
   * `height - 20`, or at the top line 20 of a fresh page.
   */
  lemma {:induction false} RenderWithinMargin(l: Layout, kinds: seq<LineKind>, height: int, x: int, width: int, wrap: Wrapper)
    ensures var r := RenderLines(l, kinds, height, x, width, wrap);
      |l.ops| <= |r.ops| &&
      forall i :: |l.ops| <= i < |r.ops| ==> OpY(r.ops[i]) <= height - 20 || OpY(r.ops[i]) == 20
  {
    if kinds != [] {
      var m := RenderLines(l, kinds[..|kinds| - 1], height, x, width, wrap);
      RenderWithinMargin(l, kinds[..|kinds| - 1], height, x, width, wrap);
      var r := RenderLine(m, kinds[|kinds| - 1], height, x, width, wrap);
      var b := BreakPage(m, height - 20, 20);
      assert b.y <= height - 20 || b.y == 20;
      forall i | |l.ops| <= i < |r.ops| ensures OpY(r.ops[i]) <= height - 20 || OpY(r.ops[i]) == 20 {
        if i < |m.ops| {
          assert r.ops[i] == m.ops[i];
        } else {
          assert OpY(r.ops[i]) == b.y;
        }
      }
    }
  }

  /** The page-break check: past `limit`, `addPage()` and the cursor back at `top`. */
  method BreakIfPast(doc: PdfDocument, y0: int, limit: int, top: int) returns (y: int)
    requires doc.Valid()
    modifies doc
    ensures doc.Valid()
    ensures doc.State(y) == BreakPage(old(doc.State(y0)), limit, top)
  {
    y := y0;
    if y > limit {
      doc.AddPage();
      y := top;
    }
  }

  /** The body of the renderer's loop after the page-break check: one trimmed line drawn as its class demands. */
  method DrawTrimmedLine(doc: PdfDocument, y0: int, t: string, startX: int, contentWidth: int, wrap: Wrapper)
    returns (y: int)
    requires doc.Valid()
    modifies doc
    ensures doc.Valid()
    ensures doc.State(y) == PlaceLine(old(doc.State(y0)), Classify(t), startX, contentWidth, wrap)
  {
    if StartsWith(t, "# ") {
      var body := t[2..];
      doc.Text(startX, y0, body, Some(contentWidth));
      y := y0 + wrap(body, contentWidth, HeadingFont) * 7 + 4;
    } else if StartsWith(t, "* ") || StartsWith(t, "- ") {
      var body := t[2..];
      doc.Text(startX, y0, "•", None);
      doc.Text(startX + 5, y0, body, Some(contentWidth - 5));
      y := y0 + wrap(body, contentWidth - 5, BodyFont) * 5 + 2;
    } else if t != [] {
      doc.Text(startX, y0, t, Some(contentWidth));
      y := y0 + wrap(t, contentWidth, BodyFont) * 5 + 2;
    } else {
      y := y0 + 5;
    }
  }

  /** One pass of the renderer's loop: the page-break check, then the trimmed line. */
  method RenderSourceLine(doc: PdfDocument, y0: int, line: string, startX: int, contentWidth: int,
                          wrap: Wrapper)
    returns (y: int)
    requires doc.Valid()
    modifies doc
    ensures doc.Valid()
    ensures doc.State(y) == RenderLine(old(doc.State(y0)), Classify(Trim(line)), doc.pageHeight, startX, contentWidth, wrap)
  {
    y := BreakIfPast(doc, y0, doc.pageHeight - 20, 20);
    var t := Trim(line);
    y := DrawTrimmedLine(doc, y, t, startX, contentWidth, wrap);
  }

  /**
   * `renderMarkdownToPdf(doc, markdown, startY, startX, contentWidth)`: for
   * each line of the markdown, break the page when the cursor is past the
   * bottom margin, then draw the trimmed line as its class demands and move
   * the cursor down; the final cursor is returned.
   */
  method RenderMarkdownToPdf(doc: PdfDocument, markdown: string, startY: int, startX: int, contentWidth: int,
                             wrap: Wrapper)
    returns (y: int)
    requires doc.Valid()
    modifies doc
    ensures doc.Valid()
    ensures doc.State(y) == Render(old(doc.State(startY)), markdown, doc.pageHeight, startX, contentWidth, wrap)
  {
    ghost var start := doc.State(startY);
    y := startY;
    var lines := SplitLines(markdown);
    ghost var kinds := LineKinds(lines);
    var j := 0;
    while j < |lines|
      invariant 0 <= j <= |lines| && doc.Valid()
      invariant doc.State(y) == RenderLines(start, kinds[..j], doc.pageHeight, startX, contentWidth, wrap)
    {
      y := RenderSourceLine(doc, y, lines[j], startX, contentWidth, wrap);
      RenderLinesSnoc(start, kinds, j, doc.pageHeight, startX, contentWidth, wrap);
      j := j + 1;
    }
    assert kinds[..j] == kinds;
  }

  /** Rendering one more line is one more pass of the loop. */
  lemma RenderLinesSnoc(l: Layout, kinds: seq<LineKind>, j: nat, height: int, x: int, width: int, wrap: Wrapper)
    requires j < |kinds|
    ensures RenderLines(l, kinds[..j + 1], height, x, width, wrap)
         == RenderLine(RenderLines(l, kinds[..j], height, x, width, wrap), kinds[j], height, x, width, wrap)
  {
    assert kinds[..j + 1][..j] == kinds[..j];
  }

  // ---------------------------------------------------------------------
  // The targeted report
  // ---------------------------------------------------------------------

  const Margin := 20

  /** The start of `renderSection`: break if past `height - 40`, then the title and, 7 below it, the rule. */
  function SectionHead(l: Layout, title: string, height: int, width: int): Layout
  {
    var b := BreakPage(l, height - Margin - 20, Margin);
    Layout(b.pageCount, b.page,
           b.ops + [DrawText(b.page, Margin, b.y, title, None), Line(b.page, Margin, b.y + 7, width - Margin, b.y + 7)],
           b.y + 12)
  }

  /** `renderSection(title, content)`: the head, the body 5 below the rule, and 10 of spacing. */
  function SectionLayout(l: Layout, title: string, content: string, height: int, width: int,
                         wrap: Wrapper): Layout
  {
    var body := Render(SectionHead(l, title, height, width), content, height, Margin, width - Margin * 2, wrap);
    Layout(body.pageCount, body.page, body.ops, body.y + 10)
  }

  /** The four sections of the report, titled, in the order they are laid out. */
  function Sections(data: SpecificGuidelineResult): (r: seq<(string, string)>)
    ensures |r| == 4
  {
    [("Executive Summary", data.executiveSummary),
     ("Identified Strengths", data.strengths),
     ("Areas for Improvement", data.areasForImprovement),
     ("Actionable Recommendations", data.recommendations)]
  }

  /** The header drawn on the first page, with the cursor left at 70. */
  function HeaderLayout(programName: string): Layout
  {
    Layout(1, 1, [DrawText(1, Margin, Margin, "DentEdTeck", None),
                  Centered(1, Margin + 15, "GDC Compliance Report"),
                  Centered(1, Margin + 25, "Program: " + programName)], Margin + 50)
  }

  /** The sections laid out one after the other. */
  function SectionsLayout(l: Layout, sections: seq<(string, string)>, height: int, width: int,
                          wrap: Wrapper): Layout
  {
    if sections == [] then l
    else
      var last := sections[|sections| - 1];
      SectionLayout(SectionsLayout(l, sections[..|sections| - 1], height, width, wrap), last.0, last.1, height, width, wrap)
  }

  /** The document once the header and the four sections are laid out, before the footers. */
  function ReportLayout(data: SpecificGuidelineResult, height: int, width: int, wrap: Wrapper): Layout
  {
    SectionsLayout(HeaderLayout(data.programName), Sections(data), height, width, wrap)
  }

  /** `Page ${i} of ${pageCount} | Copyright © ${year} DentEdTeck`. */
  function FooterText(i: nat, pageCount: nat, year: nat): string
  {
    "Page " + NatToString(i) + FooterTail(pageCount, year)
  }

  /** What follows the page number in a footer: the same on every page. */
  function FooterTail(pageCount: nat, year: nat): (r: string)
    ensures |r| > 0 && r[0] == ' '
  {
    " of " + NatToString(pageCount) + " | Copyright © " + NatToString(year) + " DentEdTeck"
  }

  /** The footer pass: page i, for i from 1 to n, gets its footer 10 above the bottom edge. */
  function FooterOps(n: nat, year: nat, height: int): (r: seq<Op>)
  {
    seq(n, k requires 0 <= k => Centered(k + 1, height - 10, FooterText(k + 1, n, year)))
  }

  /**
   * The first section starts at 70 on page 1: its title is the first op after
   * the header, drawn there unless the page is too short for it, in which
   * case it opens page 2 at the top margin.
   */
  lemma FirstSectionStart(data: SpecificGuidelineResult, height: int, width: int, wrap: Wrapper)
    ensures var r := ReportLayout(data, height, width, wrap);
      |r.ops| > 3 &&
      r.ops[3] == if 70 <= height - 40 then DrawText(1, 20, 70, "Executive Summary", None)
                  else DrawText(2, 20, 20, "Executive Summary", None)
  {
    var h := HeaderLayout(data.programName);
    var s := Sections(data);
    var first := SectionsLayout(h, s[..1], height, width, wrap);
    FirstSection(h, s, height, width, wrap);
    SectionAppends(h, s[0].0, s[0].1, height, width, wrap);
    SectionsAppend(h, s, 1, height, width, wrap);
    PrefixAt(first.ops, ReportLayout(data, height, width, wrap).ops, 3);
  }

  /** Laying out the first section alone. */
  lemma FirstSection(l: Layout, sections: seq<(string, string)>, height: int, width: int, wrap: Wrapper)
    requires |sections| >= 1
    ensures SectionsLayout(l, sections[..1], height, width, wrap)
         == SectionLayout(l, sections[0].0, sections[0].1, height, width, wrap)
  {
    SectionsLayoutSnoc(l, sections, 0, height, width, wrap);
    assert sections[..0] == [];
  }

  lemma PrefixAt(a: seq<Op>, b: seq<Op>, i: nat)
    requires |a| <= |b| && b[..|a|] == a && i < |a|
    ensures b[i] == a[i]
  {
    assert b[..|a|][i] == b[i];
  }

  /**
   * A section appends to what was drawn, starting with its title (followed
   * by the rule under it, as `SectionHeadOps` states).
   */
  lemma SectionAppends(l: Layout, title: string, content: string, height: int, width: int, wrap: Wrapper)
    ensures var r := SectionLayout(l, title, content, height, width, wrap);
      |r.ops| >= |l.ops| + 2 && r.ops[..|l.ops|] == l.ops
    ensures var r := SectionLayout(l, title, content, height, width, wrap);
      var b := BreakPage(l, height - Margin - 20, Margin);
      |r.ops| >= |l.ops| + 2 ==> r.ops[|l.ops|] == DrawText(b.page, Margin, b.y, title, None)
  {
    var h := SectionHead(l, title, height, width);
    var b := BreakPage(l, height - Margin - 20, Margin);
    SectionHeadOps(l, title, height, width);
    var c := SectionBodyOps(l, title, content, height, width, wrap);
    ExtendsPair(l.ops, DrawText(b.page, Margin, b.y, title, None), Line(b.page, Margin, b.y + 7, width - Margin, b.y + 7),
                h.ops, c);
  }

  /** What a section draws extends what its head drew. */
  lemma SectionBodyOps(l: Layout, title: string, content: string, height: int, width: int, wrap: Wrapper)
    returns (c: seq<Op>)
    ensures c == SectionLayout(l, title, content, height, width, wrap).ops
    ensures var h := SectionHead(l, title, height, width); |h.ops| <= |c| && c[..|h.ops|] == h.ops
  {
    var h := SectionHead(l, title, height, width);
    var kinds := LineKinds(SplitLines(content));
    RenderAppends(h, kinds, height, Margin, width - Margin * 2, wrap);
    c := RenderLines(h, kinds, height, Margin, width - Margin * 2, wrap).ops;
  }

  /** The ops a section's head appends: its title and its rule, on the page after the break check. */
  lemma SectionHeadOps(l: Layout, title: string, height: int, width: int)
    ensures var b := BreakPage(l, height - Margin - 20, Margin);
      SectionHead(l, title, height, width).ops
        == l.ops + [DrawText(b.page, Margin, b.y, title, None), Line(b.page, Margin, b.y + 7, width - Margin, b.y + 7)]
  {
  }

  /** What extends `a + [x, y]` starts with `a`, then `x`, then `y`. */
  lemma ExtendsPair(a: seq<Op>, x: Op, y: Op, b: seq<Op>, c: seq<Op>)
    requires b == a + [x, y] && |b| <= |c| && c[..|b|] == b
    ensures |c| >= |a| + 2 && c[..|a|] == a && c[|a|] == x && c[|a| + 1] == y
  {
    assert c[..|a|] == b[..|a|];
  }

  /** Laying out more sections only appends to what the first `k` drew. */
  lemma {:induction false} SectionsAppend(l: Layout, sections: seq<(string, string)>, k: nat, height: int, width: int,
                                          wrap: Wrapper)
    requires k <= |sections|
    ensures var first := SectionsLayout(l, sections[..k], height, width, wrap);
      var all := SectionsLayout(l, sections, height, width, wrap);
      |first.ops| <= |all.ops| && all.ops[..|first.ops|] == first.ops
    decreases |sections|
  {
    if k < |sections| {
      var init := sections[..|sections| - 1];
      assert init[..k] == sections[..k];
      SectionsAppend(l, init, k, height, width, wrap);
      var last := sections[|sections| - 1];
      var m := SectionsLayout(l, init, height, width, wrap);
      SectionAppends(m, last.0, last.1, height, width, wrap);
      var first := SectionsLayout(l, sections[..k], height, width, wrap);
      var all := SectionsLayout(l, sections, height, width, wrap);
      assert all.ops[..|first.ops|] == m.ops[..|first.ops|];
    } else {
      assert sections[..k] == sections;
    }
  }

  /** Sections keep the document on its last page with its ops in page order. */
  lemma {:induction false} SectionsOnLastPage(l: Layout, sections: seq<(string, string)>, height: int, width: int,
                                              wrap: Wrapper)
    requires l.page == l.pageCount && PagesOrdered(l.ops, l.page)
    ensures var r := SectionsLayout(l, sections, height, width, wrap);
      r.page == r.pageCount && r.pageCount >= l.pageCount && PagesOrdered(r.ops, r.page)
  {
    if sections != [] {
      var m := SectionsLayout(l, sections[..|sections| - 1], height, width, wrap);
      SectionsOnLastPage(l, sections[..|sections| - 1], height, width, wrap);
      var last := sections[|sections| - 1];
      SectionOnLastPage(m, last.0, last.1, height, width, wrap);
    }
  }

  /** One section keeps the document on its last page with its ops in page order. */
  lemma SectionOnLastPage(l: Layout, title: string, content: string, height: int, width: int, wrap: Wrapper)
    requires l.page == l.pageCount && PagesOrdered(l.ops, l.page)
    ensures var r := SectionLayout(l, title, content, height, width, wrap);
      r.page == r.pageCount && r.pageCount >= l.pageCount && PagesOrdered(r.ops, r.page)
  {
    var h := SectionHead(l, title, height, width);
    HeadOnLastPage(l, title, height, width);
    RenderOnLastPage(h, LineKinds(SplitLines(content)), height, Margin, width - Margin * 2, wrap);
    RenderPageBound(h, LineKinds(SplitLines(content)), height, Margin, width - Margin * 2, wrap);
  }

  /** A section's head keeps the document on its last page with its ops in page order. */
  lemma HeadOnLastPage(l: Layout, title: string, height: int, width: int)
    requires l.page == l.pageCount && PagesOrdered(l.ops, l.page)
    ensures var h := SectionHead(l, title, height, width);
      h.page == h.pageCount && h.pageCount >= l.pageCount && PagesOrdered(h.ops, h.page)
  {
    var b := BreakPage(l, height - Margin - 20, Margin);
    assert PagesOrdered(b.ops, b.page);
    AppendOnPage(b.ops, [DrawText(b.page, Margin, b.y, title, None), Line(b.page, Margin, b.y + 7, width - Margin, b.y + 7)], b.page);
  }

  /**
   * The laid-out report ends on its last page, with every op on a page no
   * later than the next: the footer pass's page count is the number of
   * pages the layout produced, and the header stays first.
   */
  lemma ReportOnLastPage(data: SpecificGuidelineResult, height: int, width: int, wrap: Wrapper)
    ensures var r := ReportLayout(data, height, width, wrap);
      r.pageCount >= 1 && r.page == r.pageCount && PagesOrdered(r.ops, r.page)
      && |r.ops| >= 3 && r.ops[..3] == HeaderLayout(data.programName).ops
  {
    var h := HeaderLayout(data.programName);
    assert PagesOrdered(h.ops, 1);
    SectionsOnLastPage(h, Sections(data), height, width, wrap);
    SectionsAppend(h, Sections(data), 0, height, width, wrap);
    assert Sections(data)[..0] == [];
  }

  /** The footer pass stamps page i, and only page i, with "Page i of n", the same n throughout. */
  lemma FooterOpsAt(n: nat, year: nat, height: int, k: nat)
    requires k < n
    ensures |FooterOps(n, year, height)| == n
    ensures FooterOps(n, year, height)[k] == Centered(k + 1, height - 10, FooterText(k + 1, n, year))
  {
  }

  /** Different pages get different footers, and every footer names the same page count and year. */
  lemma FooterTextsDistinct(i: nat, j: nat, n: nat, year: nat)
    requires FooterText(i, n, year) == FooterText(j, n, year)
    ensures i == j
  {
    FooterNumber(NatToString(i), NatToString(j), FooterTail(n, year));
    NatToStringInjective(i, j);
  }

  /** The number after "Page " ends at the first space, since it is all digits. */
  lemma FooterNumber(a: string, b: string, tail: string)
    requires AllDigits(a) && AllDigits(b) && |tail| > 0 && tail[0] == ' '
    requires "Page " + a + tail == "Page " + b + tail
    ensures a == b
  {
    var s := "Page " + a + tail;
    assert |a| == |b|;
    assert a == s[5..5 + |a|] == b;
  }

  /** The start of `renderSection`: the page-break check, the title, and the rule 7 below it. */
  method RenderSectionHead(doc: PdfDocument, y0: int, title: string) returns (y: int)
    requires doc.Valid()
    modifies doc
    ensures doc.Valid()
    ensures doc.State(y) == SectionHead(old(doc.State(y0)), title, doc.pageHeight, doc.pageWidth)
  {
    y := BreakIfPast(doc, y0, doc.pageHeight - Margin - 20, Margin);
    doc.Text(Margin, y, title, None);
    y := y + 7;
    doc.DrawLine(Margin, y, doc.pageWidth - Margin, y);
    y := y + 5;
  }

  /** `renderSection`, with the captured cursor passed in and returned. */
  method RenderSection(doc: PdfDocument, y0: int, title: string, content: string, wrap: Wrapper)
    returns (y: int)
    requires doc.Valid()
    modifies doc
    ensures doc.Valid()
    ensures doc.State(y) == SectionLayout(old(doc.State(y0)), title, content, doc.pageHeight, doc.pageWidth, wrap)
  {
    y := RenderSectionHead(doc, y0, title);
    y := RenderMarkdownToPdf(doc, content, y, Margin, doc.pageWidth - Margin * 2, wrap);
    y := y + 10;
  }

  /** The footer loop: `setPage(i)` and the centred footer, for each page in turn. */
  method StampFooters(doc: PdfDocument, year: nat)
    requires doc.Valid()
    modifies doc
    ensures doc.Valid() && doc.pageCount == old(doc.pageCount) && doc.currentPage == doc.pageCount
    ensures doc.ops == old(doc.ops) + FooterOps(doc.pageCount, year, doc.pageHeight)
  {
    var pageCount := doc.pageCount;
    var i := 1;
    while i <= pageCount
      invariant 1 <= i <= pageCount + 1 && doc.Valid() && doc.pageCount == pageCount
      invariant i > 1 ==> doc.currentPage == i - 1
      invariant doc.ops == old(doc.ops) + FooterOps(pageCount, year, doc.pageHeight)[..i - 1]
    {
      doc.SetPage(i);
      doc.TextCentered(doc.pageHeight - 10, FooterText(i, pageCount, year));
      assert FooterOps(pageCount, year, doc.pageHeight)[..i] ==
             FooterOps(pageCount, year, doc.pageHeight)[..i - 1] + [Centered(i, doc.pageHeight - 10, FooterText(i, pageCount, year))];
      i := i + 1;
    }
    assert FooterOps(pageCount, year, doc.pageHeight)[..i - 1] == FooterOps(pageCount, year, doc.pageHeight);
  }

  /** The header of `generatePdf` on the new document: brand, title and program name, leaving the cursor at 70. */
  method RenderHeader(doc: PdfDocument, programName: string) returns (y: int)
    requires doc.Valid() && doc.pageCount == 1 && doc.currentPage == 1 && doc.ops == []
    modifies doc
    ensures doc.Valid()
    ensures doc.State(y) == HeaderLayout(programName)
  {
    y := Margin;
    doc.Text(Margin, y, "DentEdTeck", None);
    y := y + 15;
    doc.TextCentered(y, "GDC Compliance Report");
    y := y + 10;
    doc.TextCentered(y, "Program: " + programName);
    y := y + 25;
  }

  /** The four `renderSection` calls, in order. */
  method RenderSections(doc: PdfDocument, y0: int, sections: seq<(string, string)>, wrap: Wrapper)
    returns (y: int)
    requires doc.Valid()
    modifies doc
    ensures doc.Valid()
    ensures doc.State(y) == SectionsLayout(old(doc.State(y0)), sections, doc.pageHeight, doc.pageWidth, wrap)
  {
    ghost var start := doc.State(y0);
    y := y0;
    var k := 0;
    while k < |sections|
      invariant 0 <= k <= |sections| && doc.Valid()
      invariant doc.State(y) == SectionsLayout(start, sections[..k], doc.pageHeight, doc.pageWidth, wrap)
    {
      y := RenderSection(doc, y, sections[k].0, sections[k].1, wrap);
      SectionsLayoutSnoc(start, sections, k, doc.pageHeight, doc.pageWidth, wrap);
      k := k + 1;
    }
    assert sections[..k] == sections;
  }

  lemma SectionsLayoutSnoc(l: Layout, sections: seq<(string, string)>, k: nat, height: int, width: int,
                           wrap: Wrapper)
    requires k < |sections|
    ensures SectionsLayout(l, sections[..k + 1], height, width, wrap)
         == SectionLayout(SectionsLayout(l, sections[..k], height, width, wrap), sections[k].0, sections[k].1, height, width, wrap)
  {
    assert sections[..k + 1][..k] == sections[..k];
  }

  /**
   * `generatePdf(data)`: the header, the four sections in their fixed
   * order, then the footers on every page; the name the document is saved
   * under is returned.
   */
  method GeneratePdf(data: SpecificGuidelineResult, pageHeight: int, pageWidth: int, year: nat, wrap: Wrapper)
    returns (doc: PdfDocument, fileName: string)
    ensures fresh(doc) && doc.Valid() && doc.pageHeight == pageHeight && doc.pageWidth == pageWidth
    ensures var laid := ReportLayout(data, pageHeight, pageWidth, wrap);
      doc.pageCount == laid.pageCount && doc.currentPage == laid.pageCount
      && doc.ops == laid.ops + FooterOps(laid.pageCount, year, pageHeight)
    ensures fileName == ReportFileName(data.programName)
  {
    doc := new PdfDocument(pageHeight, pageWidth);
    var y := RenderHeader(doc, data.programName);
    y := RenderSections(doc, y, Sections(data), wrap);
    ReportOnLastPage(data, pageHeight, pageWidth, wrap);
    StampFooters(doc, year);
    fileName := ReportFileName(data.programName);
  }

  // ---------------------------------------------------------------------
  // The file name
  // ---------------------------------------------------------------------

  predicate IsAsciiAlnum(c: char)
  {
    ('a' <= c <= 'z') || ('A' <= c <= 'Z') || ('0' <= c <= '9')
  }

  predicate IsSafe(c: char)
  {
    IsAsciiAlnum(c) || c == '_'
  }

  /** The number of UTF-16 code units of `s`: JavaScript's `length`. */
  function Utf16Length(s: string): nat
  {
    if s == [] then 0 else (if s[0] as int >= 0x10000 then 2 else 1) + Utf16Length(s[1..])
  }

  /**
   * `replace(/[^a-z0-9]/gi, '_')`. The pattern has no `u` flag, so it sees
   * UTF-16 code units: a character outside the Basic Multilingual Plane is
   * two units and becomes two underscores.
   */
  function Sanitize(s: string): (r: string)
  {
    if s == [] then []
    else
      var head := if IsAsciiAlnum(s[0]) then [s[0]] else if s[0] as int >= 0x10000 then "__" else "_";
      head + Sanitize(s[1..])
  }

  /** The sanitised name has the JavaScript length of the original. */
  lemma {:induction false} SanitizeLength(s: string)
    ensures |Sanitize(s)| == Utf16Length(s)
  {
    if s != [] {
      SanitizeLength(s[1..]);
    }
  }

  /** The sanitised name holds only ASCII letters, digits and underscores. */
  lemma {:induction false} SanitizeSafe(s: string)
    ensures forall i :: 0 <= i < |Sanitize(s)| ==> IsSafe(Sanitize(s)[i])
  {
    if s != [] {
      SanitizeSafe(s[1..]);
      var head := if IsAsciiAlnum(s[0]) then [s[0]] else if s[0] as int >= 0x10000 then "__" else "_";
      var r := Sanitize(s);
      forall i | 0 <= i < |r| ensures IsSafe(r[i]) {
        if i >= |head| {
          assert r[i] == Sanitize(s[1..])[i - |head|];
        }
      }
    }
  }

  /** Sanitising changes a name exactly when it holds a character other than a letter, digit or underscore. */
  lemma {:induction false} SanitizeFixed(s: string)
    ensures Sanitize(s) == s <==> forall i :: 0 <= i < |s| ==> IsSafe(s[i])
  {
    if s != [] {
      SanitizeFixed(s[1..]);
      var rest := Sanitize(s[1..]);
      if IsSafe(s[0]) {
        assert Sanitize(s) == [s[0]] + rest;
        assert s == [s[0]] + s[1..];
        if Sanitize(s) == s {
          assert rest == s[1..];
        }
        if forall i :: 0 <= i < |s| ==> IsSafe(s[i]) {
          assert forall i :: 0 <= i < |s[1..]| ==> IsSafe(s[1..][i]) by {
            forall i | 0 <= i < |s[1..]| ensures IsSafe(s[1..][i]) {
              assert s[1..][i] == s[i + 1];
            }
          }
        } else {
          var i :| 0 <= i < |s| && !IsSafe(s[i]);
          assert s[1..][i - 1] == s[i];
        }
      } else if s[0] as int >= 0x10000 {
        assert Sanitize(s)[0] == '_' != s[0];
      } else {
        assert Sanitize(s)[0] == '_' != s[0];
      }
    }
  }

  /** Sanitising twice is sanitising once. */
  lemma SanitizeIdempotent(s: string)
    ensures Sanitize(Sanitize(s)) == Sanitize(s)
  {
    SanitizeSafe(s);
    SanitizeFixed(Sanitize(s));
  }

  /**
   * For a name within the Basic Multilingual Plane, position by position:
   * letters and digits are kept and every other character becomes `_`.
   */
  lemma {:induction false} SanitizeAt(s: string, i: nat)
    requires forall j :: 0 <= j < |s| ==> s[j] as int < 0x10000
    requires i < |s|
    ensures |Sanitize(s)| == |s|
    ensures Sanitize(s)[i] == if IsAsciiAlnum(s[i]) then s[i] else '_'
  {
    if i > 0 {
      assert forall j :: 0 <= j < |s[1..]| ==> s[1..][j] as int < 0x10000 by {
        forall j | 0 <= j < |s[1..]| ensures s[1..][j] as int < 0x10000 {
          assert s[1..][j] == s[j + 1];
        }
      }
      SanitizeAt(s[1..], i - 1);
    } else if |s| > 1 {
      SanitizeAt(s[1..], 0);
    }
  }

  /** `GDC_Report_${sanitised}.pdf`. */
  function ReportFileName(programName: string): (r: string)
    ensures StartsWith(r, "GDC_Report_") && EndsWith(r, ".pdf")
    ensures |r| == 15 + Utf16Length(programName)
  {
    SanitizeLength(programName);
    "GDC_Report_" + Sanitize(programName) + ".pdf"
  }

  /** The saved name's middle is the sanitised program name, so it holds only safe characters. */
  lemma ReportFileNameSafe(programName: string)
    ensures var r := ReportFileName(programName);
      forall i :: 0 <= i < |r| ==> IsSafe(r[i]) || r[i] == '.'
  {
    SanitizeSafe(programName);
    var m := Sanitize(programName);
    var r := ReportFileName(programName);
    forall i | 0 <= i < |r| ensures IsSafe(r[i]) || r[i] == '.' {
      if 11 <= i < 11 + |m| {
        assert r[i] == m[i - 11];
      }
    }
  }
}
