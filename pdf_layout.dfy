/**
 * The vertical layout of `generatePDF`: a y-cursor walks down the page, paragraph by paragraph
 * and line by line, and starts a new page when it passes the bottom margin. Measuring text
 * (`splitTextToSize`) is left to the caller as the `wrap` function; drawing is recorded as a list
 * of placed strings.
 */
module PdfLayout {
  import opened Wrappers
  import opened JsString

  /** Left margin, top margin after a page break and bottom margin, in millimetres. */
  const Margin: int := 14
  /** Vertical advance per drawn line and per blank paragraph. */
  const LineHeight: int := 7
  /** Extra space after each non-blank paragraph. */
  const ParagraphGap: int := 2
  /** Where the first body line goes when a title is drawn, and when there is none. */
  const TitledStart: int := 35
  const UntitledStart: int := 20

  /** One `doc.text(text, x, y)` call, on page `page` (0 for the first). */
  datatype Placed = Placed(text: string, x: int, y: int, page: nat)

  /** The state of the layout: the y-cursor, the current page and everything drawn so far. */
  datatype Pen = Pen(y: int, page: nat, drawn: seq<Placed>)

  /** The pen before the body: the title and an empty spacer line on page 0 when a title is given. */
  function StartPen(title: Option<string>): Pen {
    if Truthy(title) then Pen(TitledStart, 0, [Placed(title.value, Margin, 20, 0), Placed("", Margin, 30, 0)])
    else Pen(UntitledStart, 0, [])
  }

  /** One wrapped line: a new page first when the cursor is past the bottom margin, then the line. */
  function PlaceLine(pen: Pen, line: string, pageHeight: int): Pen {
    if pen.y > pageHeight - Margin then
      Pen(Margin + LineHeight, pen.page + 1, pen.drawn + [Placed(line, Margin, Margin, pen.page + 1)])
    else
      Pen(pen.y + LineHeight, pen.page, pen.drawn + [Placed(line, Margin, pen.y, pen.page)])
  }

  /** The wrapped lines of one paragraph, in order. */
  function PlaceLines(pen: Pen, lines: seq<string>, pageHeight: int): Pen
    decreases |lines|
  {
    if lines == [] then pen
    else PlaceLine(PlaceLines(pen, lines[..|lines| - 1], pageHeight), lines[|lines| - 1], pageHeight)
  }

  /** One paragraph: a whitespace-only one only moves the cursor; any other is wrapped and drawn. */
  function PlaceParagraph(pen: Pen, paragraph: string, wrap: string -> seq<string>, pageHeight: int): Pen {
    if Blank(paragraph) then pen.(y := pen.y + LineHeight)
    else
      var after := PlaceLines(pen, wrap(paragraph), pageHeight);
      after.(y := after.y + ParagraphGap)
  }

  /** The paragraphs, in order. */
  function PlaceParagraphs(pen: Pen, paragraphs: seq<string>, wrap: string -> seq<string>, pageHeight: int): Pen
    decreases |paragraphs|
  {
    if paragraphs == [] then pen
    else
      var n := |paragraphs| - 1;
      PlaceParagraph(PlaceParagraphs(pen, paragraphs[..n], wrap, pageHeight), paragraphs[n], wrap, pageHeight)
  }

  /** The whole layout of `generatePDF`: the content split at line feeds, after the title. */
  function Layout(content: string, title: Option<string>, wrap: string -> seq<string>, pageHeight: int): Pen {
    PlaceParagraphs(StartPen(title), Split(content, '\n'), wrap, pageHeight)
  }

  /**
   * `generatePDF` with the drawing calls recorded: the cursor loop over paragraphs and their
   * wrapped lines. Returns everything drawn, the index of the last page and the final cursor.
   */
  method GeneratePdf(content: string, title: Option<string>, wrap: string -> seq<string>, pageHeight: int)
    returns (drawn: seq<Placed>, lastPage: nat, y: int)
    ensures Pen(y, lastPage, drawn) == Layout(content, title, wrap, pageHeight)
  {
    var start := StartPen(title);
    drawn, lastPage, y := start.drawn, start.page, start.y;
    var paragraphs := Split(content, '\n');
    var i := 0;
    while i < |paragraphs|
      invariant 0 <= i <= |paragraphs|
      invariant Pen(y, lastPage, drawn) == PlaceParagraphs(start, paragraphs[..i], wrap, pageHeight)
    {
      var paragraph := paragraphs[i];
      ghost var before := Pen(y, lastPage, drawn);
      if Blank(paragraph) {
        y := y + LineHeight;
      } else {
        var lines := wrap(paragraph);
        var j := 0;
        while j < |lines|
          invariant 0 <= j <= |lines|
          invariant Pen(y, lastPage, drawn) == PlaceLines(before, lines[..j], pageHeight)
        {
          ghost var pen := Pen(y, lastPage, drawn);
          if y > pageHeight - Margin {
            lastPage := lastPage + 1;
            y := Margin;
          }
          drawn := drawn + [Placed(lines[j], Margin, y, lastPage)];
          y := y + LineHeight;
          assert Pen(y, lastPage, drawn) == PlaceLine(pen, lines[j], pageHeight);
          assert lines[..j + 1][..j] == lines[..j];
          j := j + 1;
        }
        assert lines[..j] == lines;
        y := y + ParagraphGap;
      }
      assert Pen(y, lastPage, drawn) == PlaceParagraph(before, paragraph, wrap, pageHeight);
      assert paragraphs[..i + 1][..i] == paragraphs[..i];
      i := i + 1;
    }
    assert paragraphs[..i] == paragraphs;
  }

  /** A body line sits inside the margins: below the top margin and, unless it is alone at the top of a page, above the bottom margin. */
  predicate InBounds(p: Placed, pageHeight: int) {
    Margin <= p.y && (p.y <= pageHeight - Margin || p.y == Margin)
  }

  /** Everything drawn from index `from` on is inside the margins. */
  predicate DrawnInBounds(drawn: seq<Placed>, from: nat, pageHeight: int) {
    forall k :: from <= k < |drawn| ==> InBounds(drawn[k], pageHeight)
  }

  /** Drawing more lines keeps what was drawn and draws only lines inside the margins. */
  lemma {:induction false} PlaceLinesInBounds(pen: Pen, lines: seq<string>, pageHeight: int, from: nat)
    requires Margin <= pen.y && from <= |pen.drawn| && DrawnInBounds(pen.drawn, from, pageHeight)
    ensures var after := PlaceLines(pen, lines, pageHeight);
      && Margin <= after.y && pen.drawn <= after.drawn && pen.page <= after.page
      && DrawnInBounds(after.drawn, from, pageHeight)
    decreases |lines|
  {
    if lines != [] {
      var mid := PlaceLines(pen, lines[..|lines| - 1], pageHeight);
      PlaceLinesInBounds(pen, lines[..|lines| - 1], pageHeight, from);
      var after := PlaceLine(mid, lines[|lines| - 1], pageHeight);
      assert mid.drawn <= after.drawn;
    }
  }

  /** Laying out paragraphs keeps what was drawn and draws only lines inside the margins. */
  lemma {:induction false} PlaceParagraphsInBounds(pen: Pen, paragraphs: seq<string>, wrap: string -> seq<string>, pageHeight: int, from: nat)
    requires Margin <= pen.y && from <= |pen.drawn| && DrawnInBounds(pen.drawn, from, pageHeight)
    ensures var after := PlaceParagraphs(pen, paragraphs, wrap, pageHeight);
      && Margin <= after.y && pen.drawn <= after.drawn && pen.page <= after.page
      && DrawnInBounds(after.drawn, from, pageHeight)
    decreases |paragraphs|
  {
    if paragraphs != [] {
      var n := |paragraphs| - 1;
      var mid := PlaceParagraphs(pen, paragraphs[..n], wrap, pageHeight);
      PlaceParagraphsInBounds(pen, paragraphs[..n], wrap, pageHeight, from);
      if !Blank(paragraphs[n]) {
        PlaceLinesInBounds(mid, wrap(paragraphs[n]), pageHeight, from);
      }
    }
  }

  /**
   * Every body line of the document is drawn inside the margins: at or below the top margin, and
   * at or above the bottom margin unless a fresh page put it at the top; the title comes first.
   */
  lemma LayoutInBounds(content: string, title: Option<string>, wrap: string -> seq<string>, pageHeight: int)
    ensures var doc := Layout(content, title, wrap, pageHeight); var head := StartPen(title).drawn;
      && head <= doc.drawn
      && DrawnInBounds(doc.drawn, |head|, pageHeight)
  {
    var start := StartPen(title);
    PlaceParagraphsInBounds(start, Split(content, '\n'), wrap, pageHeight, |start.drawn|);
  }

  /** On a page at least twice the margin tall, every body line sits above the bottom margin. */
  lemma LayoutAboveBottom(content: string, title: Option<string>, wrap: string -> seq<string>, pageHeight: int, k: nat)
    requires pageHeight >= 2 * Margin
    requires |StartPen(title).drawn| <= k < |Layout(content, title, wrap, pageHeight).drawn|
    ensures Margin <= Layout(content, title, wrap, pageHeight).drawn[k].y <= pageHeight - Margin
  {
    LayoutInBounds(content, title, wrap, pageHeight);
  }

  /** The lines drawn for `lines` from `pen` when none of them needs a page break. */
  function Unbroken(pen: Pen, lines: seq<string>): seq<Placed> {
    seq(|lines|, i requires 0 <= i < |lines| => Placed(lines[i], Margin, pen.y + LineHeight * i, pen.page))
  }

  /**
   * Lines that fit above the bottom margin are drawn one line height apart on the current page,
   * and the cursor ends one line height below the last of them.
   */
  lemma {:induction false} PlaceLinesUnbroken(pen: Pen, lines: seq<string>, pageHeight: int)
    requires lines == [] || pen.y + LineHeight * (|lines| - 1) <= pageHeight - Margin
    ensures PlaceLines(pen, lines, pageHeight) == Pen(pen.y + LineHeight * |lines|, pen.page, pen.drawn + Unbroken(pen, lines))
    decreases |lines|
  {
    if lines != [] {
      var n := |lines| - 1;
      PlaceLinesUnbroken(pen, lines[..n], pageHeight);
      assert Unbroken(pen, lines) == Unbroken(pen, lines[..n]) + [Placed(lines[n], Margin, pen.y + LineHeight * n, pen.page)];
    }
  }

  /**
   * A whitespace-only paragraph draws nothing and moves the cursor down one line height; any other
   * paragraph whose lines fit on the page is drawn there and moves it down one line height per
   * line plus the paragraph gap.
   */
  lemma ParagraphAdvance(pen: Pen, paragraph: string, wrap: string -> seq<string>, pageHeight: int)
    requires !Blank(paragraph) ==> wrap(paragraph) == [] || pen.y + LineHeight * (|wrap(paragraph)| - 1) <= pageHeight - Margin
    ensures var after := PlaceParagraph(pen, paragraph, wrap, pageHeight);
      && (AllSpace(paragraph) ==> after == Pen(pen.y + LineHeight, pen.page, pen.drawn))
      && (!AllSpace(paragraph) ==>
            after == Pen(pen.y + LineHeight * |wrap(paragraph)| + ParagraphGap, pen.page, pen.drawn + Unbroken(pen, wrap(paragraph))))
  {
    TrimEmpty(paragraph);
    if !Blank(paragraph) {
      PlaceLinesUnbroken(pen, wrap(paragraph), pageHeight);
    }
  }

  /** The text of every drawn string, in order. */
  function Texts(drawn: seq<Placed>): (r: seq<string>)
    ensures |r| == |drawn|
    ensures forall k :: 0 <= k < |r| ==> r[k] == drawn[k].text
  {
    seq(|drawn|, k requires 0 <= k < |drawn| => drawn[k].text)
  }

  /** The wrapped lines of the paragraphs that are not whitespace-only, in order. */
  function WrappedLines(paragraphs: seq<string>, wrap: string -> seq<string>): seq<string>
    decreases |paragraphs|
  {
    if paragraphs == [] then []
    else
      var n := |paragraphs| - 1;
      WrappedLines(paragraphs[..n], wrap) + (if AllSpace(paragraphs[n]) then [] else wrap(paragraphs[n]))
  }

  /** Placing lines draws exactly those lines, after what was drawn before. */
  lemma {:induction false} PlaceLinesTexts(pen: Pen, lines: seq<string>, pageHeight: int)
    ensures Texts(PlaceLines(pen, lines, pageHeight).drawn) == Texts(pen.drawn) + lines
    decreases |lines|
  {
    if lines != [] {
      var n := |lines| - 1;
      PlaceLinesTexts(pen, lines[..n], pageHeight);
      assert lines == lines[..n] + [lines[n]];
    }
  }

  /** Laying out paragraphs draws exactly the wrapped lines of the non-blank ones, in order. */
  lemma {:induction false} PlaceParagraphsTexts(pen: Pen, paragraphs: seq<string>, wrap: string -> seq<string>, pageHeight: int)
    ensures Texts(PlaceParagraphs(pen, paragraphs, wrap, pageHeight).drawn) == Texts(pen.drawn) + WrappedLines(paragraphs, wrap)
    decreases |paragraphs|
  {
    if paragraphs != [] {
      var n := |paragraphs| - 1;
      var mid := PlaceParagraphs(pen, paragraphs[..n], wrap, pageHeight);
      PlaceParagraphsTexts(pen, paragraphs[..n], wrap, pageHeight);
      TrimEmpty(paragraphs[n]);
      if !Blank(paragraphs[n]) {
        PlaceLinesTexts(mid, wrap(paragraphs[n]), pageHeight);
      }
    }
  }

  /**
   * The document shows the title and its spacer (when a title is given), then the wrapped lines of
   * every paragraph of the content that is not whitespace-only, in order, and nothing else.
   */
  lemma LayoutTexts(content: string, title: Option<string>, wrap: string -> seq<string>, pageHeight: int)
    ensures Texts(Layout(content, title, wrap, pageHeight).drawn)
      == (if Truthy(title) then [title.value, ""] else []) + WrappedLines(Split(content, '\n'), wrap)
  {
    PlaceParagraphsTexts(StartPen(title), Split(content, '\n'), wrap, pageHeight);
  }

  /** Laying out `a + b` is laying out `a`, then `b` from where `a` left the pen. */
  lemma {:induction false} PlaceParagraphsAppend(pen: Pen, a: seq<string>, b: seq<string>, wrap: string -> seq<string>, pageHeight: int)
    ensures PlaceParagraphs(pen, a + b, wrap, pageHeight)
      == PlaceParagraphs(PlaceParagraphs(pen, a, wrap, pageHeight), b, wrap, pageHeight)
    decreases |b|
  {
    if b == [] {
      assert a + b == a;
    } else {
      var n := |b| - 1;
      PlaceParagraphsAppend(pen, a, b[..n], wrap, pageHeight);
      assert (a + b)[..|a + b| - 1] == a + b[..n];
    }
  }

  /**
   * The first line of a non-blank first paragraph is drawn on the first page at the start position:
   * 35 below a title, 20 without one.
   */
  lemma FirstLineAtStart(content: string, title: Option<string>, wrap: string -> seq<string>, pageHeight: int)
    requires !AllSpace(Split(content, '\n')[0]) && wrap(Split(content, '\n')[0]) != []
    requires TitledStart <= pageHeight - Margin
    ensures var doc := Layout(content, title, wrap, pageHeight); var head := |StartPen(title).drawn|;
      && head < |doc.drawn|
      && doc.drawn[head] == Placed(wrap(Split(content, '\n')[0])[0], Margin, if Truthy(title) then TitledStart else UntitledStart, 0)
  {
    var paragraphs := Split(content, '\n');
    var start := StartPen(title);
    var lines := wrap(paragraphs[0]);
    var first := PlaceParagraphs(start, paragraphs[..1], wrap, pageHeight);
    assert paragraphs[..1][..0] == [];
    TrimEmpty(paragraphs[0]);
    PlaceLinesInBounds(start, lines, pageHeight, |start.drawn|);
    PlaceLinesFirst(start, lines, pageHeight);
    PlaceParagraphsAppend(start, paragraphs[..1], paragraphs[1..], wrap, pageHeight);
    assert paragraphs[..1] + paragraphs[1..] == paragraphs;
    PlaceParagraphsInBounds(first, paragraphs[1..], wrap, pageHeight, |first.drawn|);
  }

  /** The first of several lines placed from a pen above the bottom margin goes where the pen is. */
  lemma {:induction false} PlaceLinesFirst(pen: Pen, lines: seq<string>, pageHeight: int)
    requires lines != [] && pen.y <= pageHeight - Margin
    ensures var after := PlaceLines(pen, lines, pageHeight);
      |pen.drawn| < |after.drawn| && after.drawn[|pen.drawn|] == Placed(lines[0], Margin, pen.y, pen.page)
    decreases |lines|
  {
    var n := |lines| - 1;
    if n > 0 {
      PlaceLinesFirst(pen, lines[..n], pageHeight);
    }
  }
}
