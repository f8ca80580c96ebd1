/** The layout of the "Additional Point Details" section of the exported
    document: a cursor `(finalY, page)` moved down the page by fixed steps,
    with a new page whenever the cursor has passed a threshold before a line
    is drawn. The table drawn before the section and the wrapping of long
    paragraphs are done by the PDF library; here they are inputs: the
    table's end position and page count, and `wrap`, the number of lines a
    paragraph wraps to. */
module Pagination {

  /** Vertical gap between the end of the table and the caption. */
  const TableGap: real := 10.0
  /** A caption or point heading is drawn only at or above this position. */
  const HeadingLimit: real := 180.0
  /** A detail paragraph is drawn only at or above this position. */
  const ParagraphLimit: real := 185.0
  /** Where the cursor starts on a new page. */
  const TopMargin: real := 20.0
  const CaptionStep: real := 7.0
  const HeadingStep: real := 5.0
  const LineHeight: real := 4.0
  const BlockGap: real := 3.0

  const Caption := "Additional Point Details:"

  /** The layout state: `finalY` (in millimetres, fractional after the
      table) and the page being written (pages are only ever added at the
      end, so it is also the number of pages). */
  datatype Cursor = Cursor(y: real, page: nat)

  datatype Kind = CaptionLine | HeadingLine | ParagraphLines

  /** One `doc.text` call: what was drawn, over how many lines, and where. */
  datatype Placement = Placement(kind: Kind, text: string, lines: nat, page: nat, y: real)

  /** One selected point's part of the section: its heading line and its
      detail paragraphs. */
  datatype DetailBlock = DetailBlock(heading: string, paragraphs: seq<string>)

  datatype Layout = Layout(cursor: Cursor, placed: seq<Placement>)

  /** The threshold checked before drawing a line of this kind. */
  function Limit(k: Kind): real {
    if k == ParagraphLines then ParagraphLimit else HeadingLimit
  }

  /** `if (finalY > limit) { doc.addPage(); finalY = 20; }` */
  function BreakAbove(c: Cursor, limit: real): Cursor {
    if c.y > limit then Cursor(TopMargin, c.page + 1) else c
  }

  /** The `details.forEach` loop over one point's paragraphs. */
  function PlaceParagraphs(c: Cursor, ps: seq<string>, wrap: string -> nat): Layout {
    if ps == [] then Layout(c, [])
    else
      var prev := PlaceParagraphs(c, ps[..|ps| - 1], wrap);
      var text := ps[|ps| - 1];
      var at := BreakAbove(prev.cursor, ParagraphLimit);
      Layout(Cursor(at.y + LineHeight * (wrap(text) as real), at.page),
             prev.placed + [Placement(ParagraphLines, text, wrap(text), at.page, at.y)])
  }

  /** One iteration of the `selectedPoints.forEach` loop: the heading, its
      paragraphs, and the gap after them. */
  function PlaceBlock(c: Cursor, b: DetailBlock, wrap: string -> nat): Layout {
    var at := BreakAbove(c, HeadingLimit);
    var body := PlaceParagraphs(Cursor(at.y + HeadingStep, at.page), b.paragraphs, wrap);
    Layout(Cursor(body.cursor.y + BlockGap, body.cursor.page),
           [Placement(HeadingLine, b.heading, 1, at.page, at.y)] + body.placed)
  }

  /** The whole `selectedPoints.forEach` loop. */
  function PlaceBlocks(c: Cursor, bs: seq<DetailBlock>, wrap: string -> nat): Layout {
    if bs == [] then Layout(c, [])
    else
      var prev := PlaceBlocks(c, bs[..|bs| - 1], wrap);
      var next := PlaceBlock(prev.cursor, bs[|bs| - 1], wrap);
      Layout(next.cursor, prev.placed + next.placed)
  }

  /** The whole section: the caption, then every point's block. */
  function LayoutDetails(tableFinalY: real, tablePages: nat, bs: seq<DetailBlock>, wrap: string -> nat): Layout {
    var at := BreakAbove(Cursor(tableFinalY + TableGap, tablePages), HeadingLimit);
    var body := PlaceBlocks(Cursor(at.y + CaptionStep, at.page), bs, wrap);
    Layout(body.cursor, [Placement(CaptionLine, Caption, 1, at.page, at.y)] + body.placed)
  }

  // ------------------------------------------------------------ properties
  //
  // The section as a flat sequence of drawn lines: each line's position is
  // fixed by the one before it, whatever point or paragraph it belongs to.

  /** How far the cursor moves down after drawing a line: 7 after the
      caption, 5 after a heading, 4 per wrapped line after a paragraph. */
  function Advance(p: Placement): real {
    match p.kind
    case CaptionLine => CaptionStep
    case HeadingLine => HeadingStep
    case ParagraphLines => LineHeight * (p.lines as real)
  }

  /** The cursor right after a line is drawn. */
  function After(p: Placement): Cursor {
    Cursor(p.y + Advance(p), p.page)
  }

  /** The cursor the break check before a line of kind `k` sees, when the
      line before it was of kind `prev` and left the cursor at `c`: a
      heading that closes a point's block (anything but the caption before
      it) comes after the 3 mm gap between blocks. */
  function Checked(c: Cursor, prev: Kind, k: Kind): Cursor {
    if k == HeadingLine && prev != CaptionLine then Cursor(c.y + BlockGap, c.page) else c
  }

  /** The break rule for one line: a new page, with the line at the top
      margin, exactly when the cursor its check sees is below the line's
      threshold; otherwise the line is drawn at that cursor on the same
      page. */
  predicate Follows(c: Cursor, prev: Kind, p: Placement) {
    var seen := Checked(c, prev, p.kind);
    if seen.y > Limit(p.kind) then p.page == seen.page + 1 && p.y == TopMargin
    else p.page == seen.page && p.y == seen.y
  }

  /** Starting at cursor `c` after a line of kind `prev`, every line obeys
      the break rule relative to the cursor the line before it left, and
      `end` is the cursor the last line leaves. */
  predicate Chain(c: Cursor, prev: Kind, placed: seq<Placement>, end: Cursor)
    decreases |placed|
  {
    if placed == [] then end == c
    else Follows(c, prev, placed[0]) && Chain(After(placed[0]), placed[0].kind, placed[1..], end)
  }

  /** The kind of the last line drawn, `prev` if none was. */
  function LastKind(prev: Kind, placed: seq<Placement>): Kind {
    if placed == [] then prev else placed[|placed| - 1].kind
  }

  /** The cursor the last line leaves, `c` if none was drawn. */
  function EndOf(c: Cursor, placed: seq<Placement>): Cursor {
    if placed == [] then c else After(placed[|placed| - 1])
  }

  /** Every line is drawn at or above the threshold of its kind. */
  predicate WithinLimits(placed: seq<Placement>) {
    forall i :: 0 <= i < |placed| ==> placed[i].y <= Limit(placed[i].kind)
  }

  /** How many lines start a new page, counting from page `page`. */
  function Opened(page: nat, placed: seq<Placement>): nat
    decreases |placed|
  {
    if placed == [] then 0
    else (if placed[0].page != page then 1 else 0) + Opened(placed[0].page, placed[1..])
  }

  /** A chain ends where its last line leaves the cursor. */
  lemma {:induction false} ChainEnd(c: Cursor, prev: Kind, placed: seq<Placement>, end: Cursor)
    requires Chain(c, prev, placed, end)
    ensures end == EndOf(c, placed)
    decreases |placed|
  {
    if placed != [] {
      ChainEnd(After(placed[0]), placed[0].kind, placed[1..], end);
      if |placed| > 1 {
        assert placed[1..][|placed| - 2] == placed[|placed| - 1];
      }
    }
  }

  /** Along a chain, the page number grows by one per page opened. */
  lemma {:induction false} ChainOpened(c: Cursor, prev: Kind, placed: seq<Placement>, end: Cursor)
    requires Chain(c, prev, placed, end)
    ensures end.page == c.page + Opened(c.page, placed)
    decreases |placed|
  {
    if placed != [] {
      ChainOpened(After(placed[0]), placed[0].kind, placed[1..], end);
    }
  }

  /** The break rule keeps every line within its threshold. */
  lemma {:induction false} ChainWithinLimits(c: Cursor, prev: Kind, placed: seq<Placement>, end: Cursor)
    requires Chain(c, prev, placed, end)
    ensures WithinLimits(placed)
    decreases |placed|
  {
    if placed != [] {
      ChainWithinLimits(After(placed[0]), placed[0].kind, placed[1..], end);
      forall i | 0 <= i < |placed| ensures placed[i].y <= Limit(placed[i].kind) {
        if i > 0 {
          assert placed[i] == placed[1..][i - 1];
        }
      }
    }
  }

  /** Any two consecutive lines of a chain obey the break rule. */
  lemma {:induction false} ChainConsecutive(c: Cursor, prev: Kind, placed: seq<Placement>, end: Cursor, i: nat)
    requires Chain(c, prev, placed, end) && 0 < i < |placed|
    ensures Follows(After(placed[i - 1]), placed[i - 1].kind, placed[i])
    decreases i
  {
    var rest := placed[1..];
    assert rest[i - 1] == placed[i];
    if i > 1 {
      ChainConsecutive(After(placed[0]), placed[0].kind, rest, end, i - 1);
      assert rest[i - 2] == placed[i - 1];
    }
  }

  /** Two chains, the second starting where the first ends, make one. */
  lemma {:induction false} ChainAppend(a: Cursor, k: Kind, p: seq<Placement>, b: Cursor, q: seq<Placement>, c: Cursor)
    requires Chain(a, k, p, b) && Chain(b, LastKind(k, p), q, c)
    ensures Chain(a, k, p + q, c)
    decreases |p|
  {
    if p == [] {
      assert p + q == q;
    } else {
      assert (p + q)[1..] == p[1..] + q;
      if |p| > 1 {
        assert p[1..][|p| - 2] == p[|p| - 1];
      }
      ChainAppend(After(p[0]), p[0].kind, p[1..], b, q, c);
    }
  }

  /** What a drawn line is, apart from where it is drawn. */
  datatype Line = Line(kind: Kind, text: string, lines: nat)

  function Shape(placed: seq<Placement>): seq<Line> {
    seq(|placed|, i requires 0 <= i < |placed| => Line(placed[i].kind, placed[i].text, placed[i].lines))
  }

  lemma ShapeAppend(a: seq<Placement>, b: seq<Placement>)
    ensures Shape(a + b) == Shape(a) + Shape(b)
  {
  }

  /** Each paragraph, in order, over as many lines as `wrap` splits it into. */
  function ParagraphShape(ps: seq<string>, wrap: string -> nat): seq<Line> {
    if ps == [] then []
    else ParagraphShape(ps[..|ps| - 1], wrap) + [Line(ParagraphLines, ps[|ps| - 1], wrap(ps[|ps| - 1]))]
  }

  /** One point: its heading on one line, then its paragraphs. */
  function BlockShape(b: DetailBlock, wrap: string -> nat): seq<Line> {
    [Line(HeadingLine, b.heading, 1)] + ParagraphShape(b.paragraphs, wrap)
  }

  function BlocksShape(bs: seq<DetailBlock>, wrap: string -> nat): seq<Line> {
    if bs == [] then []
    else BlocksShape(bs[..|bs| - 1], wrap) + BlockShape(bs[|bs| - 1], wrap)
  }

  /** The whole section: the caption on one line, then every point in order. */
  function SectionShape(bs: seq<DetailBlock>, wrap: string -> nat): seq<Line> {
    [Line(CaptionLine, Caption, 1)] + BlocksShape(bs, wrap)
  }

  /** The paragraph loop: the paragraphs are drawn in order, each over as
      many lines as `wrap` gives, and every one obeys the break rule,
      whatever line came before it. */
  lemma {:induction false} ParagraphsChain(c: Cursor, prev: Kind, ps: seq<string>, wrap: string -> nat)
    ensures var r := PlaceParagraphs(c, ps, wrap);
      && Chain(c, prev, r.placed, r.cursor)
      && Shape(r.placed) == ParagraphShape(ps, wrap)
      && forall i :: 0 <= i < |r.placed| ==> r.placed[i].kind == ParagraphLines
  {
    if ps != [] {
      var before := PlaceParagraphs(c, ps[..|ps| - 1], wrap);
      ParagraphsChain(c, prev, ps[..|ps| - 1], wrap);
      var text := ps[|ps| - 1];
      var at := BreakAbove(before.cursor, ParagraphLimit);
      var last := Placement(ParagraphLines, text, wrap(text), at.page, at.y);
      var r := PlaceParagraphs(c, ps, wrap);
      assert After(last) == r.cursor;
      assert [last][1..] == [];
      assert Chain(before.cursor, LastKind(prev, before.placed), [last], r.cursor);
      ChainAppend(c, prev, before.placed, before.cursor, [last], r.cursor);
      ShapeAppend(before.placed, [last]);
    }
  }

  /** One point's block, entered after a line of kind `prev` that left the
      cursor at `e`: its heading, then its paragraphs, obey the break rule, and
      the block leaves the cursor 3 mm below its last line. */
  lemma BlockChain(e: Cursor, prev: Kind, b: DetailBlock, wrap: string -> nat)
    ensures var r := PlaceBlock(Checked(e, prev, HeadingLine), b, wrap);
      && Shape(r.placed) == BlockShape(b, wrap)
      && Chain(e, prev, r.placed, EndOf(e, r.placed))
      && LastKind(prev, r.placed) != CaptionLine
      && r.cursor == Cursor(EndOf(e, r.placed).y + BlockGap, EndOf(e, r.placed).page)
  {
    var c := Checked(e, prev, HeadingLine);
    var at := BreakAbove(c, HeadingLimit);
    var start := Cursor(at.y + HeadingStep, at.page);
    var body := PlaceParagraphs(start, b.paragraphs, wrap);
    var head := Placement(HeadingLine, b.heading, 1, at.page, at.y);
    var r := PlaceBlock(c, b, wrap);
    assert r.placed == [head] + body.placed;
    ParagraphsChain(start, HeadingLine, b.paragraphs, wrap);
    assert [head][1..] == [];
    assert Chain(e, prev, [head], start);
    ChainAppend(e, prev, [head], start, body.placed, body.cursor);
    ChainEnd(e, prev, r.placed, body.cursor);
    ShapeAppend([head], body.placed);
    if body.placed != [] {
      assert r.placed[|r.placed| - 1] == body.placed[|body.placed| - 1];
    }
  }

  /** The loop over the points, entered after the caption. */
  lemma {:induction false} BlocksChain(c: Cursor, bs: seq<DetailBlock>, wrap: string -> nat)
    ensures var r := PlaceBlocks(c, bs, wrap);
      && Shape(r.placed) == BlocksShape(bs, wrap)
      && Chain(c, CaptionLine, r.placed, EndOf(c, r.placed))
      && r.cursor == Checked(EndOf(c, r.placed), LastKind(CaptionLine, r.placed), HeadingLine)
  {
    if bs != [] {
      var before := PlaceBlocks(c, bs[..|bs| - 1], wrap);
      BlocksChain(c, bs[..|bs| - 1], wrap);
      var e, k := EndOf(c, before.placed), LastKind(CaptionLine, before.placed);
      var next := PlaceBlock(before.cursor, bs[|bs| - 1], wrap);
      BlockChain(e, k, bs[|bs| - 1], wrap);
      var r := PlaceBlocks(c, bs, wrap);
      assert r.placed == before.placed + next.placed;
      ChainAppend(c, CaptionLine, before.placed, e, next.placed, EndOf(e, next.placed));
      assert r.placed[|r.placed| - 1] == next.placed[|next.placed| - 1];
      ShapeAppend(before.placed, next.placed);
    }
  }

  /** Where a chain of two parts ends, and the kind of its last line. */
  lemma EndOfAppend(c: Cursor, k: Kind, p: seq<Placement>, q: seq<Placement>)
    ensures EndOf(c, p + q) == EndOf(EndOf(c, p), q)
    ensures LastKind(k, p + q) == LastKind(LastKind(k, p), q)
  {
    if q == [] {
      assert p + q == p;
    } else {
      assert (p + q)[|p + q| - 1] == q[|q| - 1];
    }
  }

  /** The caption followed by the loop over the points forms one chain
      from 10 mm below the table. */
  lemma SectionChain(tableFinalY: real, tablePages: nat, bs: seq<DetailBlock>, wrap: string -> nat)
    ensures var r := LayoutDetails(tableFinalY, tablePages, bs, wrap);
      var c := Cursor(tableFinalY + TableGap, tablePages);
      && Shape(r.placed) == SectionShape(bs, wrap)
      && Chain(c, CaptionLine, r.placed, EndOf(c, r.placed))
      && r.cursor == Checked(EndOf(c, r.placed), LastKind(CaptionLine, r.placed), HeadingLine)
  {
    var c := Cursor(tableFinalY + TableGap, tablePages);
    var at := BreakAbove(c, HeadingLimit);
    var start := Cursor(at.y + CaptionStep, at.page);
    var body := PlaceBlocks(start, bs, wrap);
    var cap := Placement(CaptionLine, Caption, 1, at.page, at.y);
    var r := LayoutDetails(tableFinalY, tablePages, bs, wrap);
    assert r.placed == [cap] + body.placed;
    BlocksChain(start, bs, wrap);
    assert Shape(r.placed) == SectionShape(bs, wrap) by {
      ShapeAppend([cap], body.placed);
    }
    assert [cap][1..] == [];
    assert Chain(c, CaptionLine, [cap], start);
    ChainAppend(c, CaptionLine, [cap], start, body.placed, EndOf(start, body.placed));
    EndOfAppend(c, CaptionLine, [cap], body.placed);
  }

  /** The page-break policy of the section. The section draws the caption,
      then each point's heading and its paragraphs, in order, with nothing
      skipped, repeated or relabelled. The caption is checked at 10 mm
      below the table, and then every line, in drawing order, obeys the
      break rule relative to the line before it: it is drawn where the
      cursor stands, 7, 5 or 4 per wrapped line below the previous line (3
      more before a new point's heading), or at y = 20 on exactly the next
      page when that position is below its threshold (180 for the caption
      and headings, 185 for paragraphs). Hence every line is within its
      threshold, the section leaves the cursor 3 mm below its last line
      (just below the caption when no point is listed), and it ends on the
      table's last page plus the number of pages it opened. */
  lemma LayoutDetailsPaginates(tableFinalY: real, tablePages: nat, bs: seq<DetailBlock>, wrap: string -> nat)
    ensures var r := LayoutDetails(tableFinalY, tablePages, bs, wrap);
      var c := Cursor(tableFinalY + TableGap, tablePages);
      && Shape(r.placed) == SectionShape(bs, wrap)
      && Chain(c, CaptionLine, r.placed, EndOf(c, r.placed))
      && r.cursor == Checked(EndOf(c, r.placed), LastKind(CaptionLine, r.placed), HeadingLine)
      && WithinLimits(r.placed)
      && r.cursor.page == tablePages + Opened(tablePages, r.placed)
  {
    var c := Cursor(tableFinalY + TableGap, tablePages);
    var r := LayoutDetails(tableFinalY, tablePages, bs, wrap);
    SectionChain(tableFinalY, tablePages, bs, wrap);
    ChainWithinLimits(c, CaptionLine, r.placed, EndOf(c, r.placed));
    ChainOpened(c, CaptionLine, r.placed, EndOf(c, r.placed));
  }

  /** No two lines overlap and no page is started early: a line on the same
      page as the one before it starts at least that line's step below it,
      and a line on a new page is on exactly the next page, at y = 20, and
      only because the position its break check saw was below its
      threshold. */
  lemma LayoutDetailsSpacing(tableFinalY: real, tablePages: nat, bs: seq<DetailBlock>, wrap: string -> nat, i: nat)
    requires 0 < i < |LayoutDetails(tableFinalY, tablePages, bs, wrap).placed|
    ensures var placed := LayoutDetails(tableFinalY, tablePages, bs, wrap).placed;
      var p, q := placed[i - 1], placed[i];
      && Shape(placed) == SectionShape(bs, wrap)
      && (q.page == p.page ==> q.y >= p.y + Advance(p))
      && (q.page != p.page ==>
            q.page == p.page + 1 && q.y == TopMargin && Checked(After(p), p.kind, q.kind).y > Limit(q.kind))
  {
    var r := LayoutDetails(tableFinalY, tablePages, bs, wrap);
    var c := Cursor(tableFinalY + TableGap, tablePages);
    SectionChain(tableFinalY, tablePages, bs, wrap);
    ChainConsecutive(c, CaptionLine, r.placed, EndOf(c, r.placed), i);
  }

  // ------------------------------------------------------- the layout loops

  /** The `details.forEach` loop as it runs: break check, draw, move down. */
  method LayOutParagraphs(start: Cursor, ps: seq<string>, wrap: string -> nat) returns (r: Layout)
    ensures r == PlaceParagraphs(start, ps, wrap)
  {
    var finalY, page := start.y, start.page;
    var placed := [];
    var j := 0;
    while j < |ps|
      invariant 0 <= j <= |ps|
      invariant Layout(Cursor(finalY, page), placed) == PlaceParagraphs(start, ps[..j], wrap)
    {
      var text := ps[j];
      if finalY > ParagraphLimit {
        page := page + 1;
        finalY := TopMargin;
      }
      var lines := wrap(text);
      placed := placed + [Placement(ParagraphLines, text, lines, page, finalY)];
      finalY := finalY + LineHeight * (lines as real);
      assert ps[..j + 1][..j] == ps[..j];
      j := j + 1;
    }
    assert ps[..j] == ps;
    r := Layout(Cursor(finalY, page), placed);
  }

  /** One point of the `selectedPoints.forEach` loop as it runs. */
  method LayOutBlock(c: Cursor, block: DetailBlock, wrap: string -> nat) returns (r: Layout)
    ensures r == PlaceBlock(c, block, wrap)
  {
    var finalY, page := c.y, c.page;
    if finalY > HeadingLimit {
      page := page + 1;
      finalY := TopMargin;
    }
    var heading := Placement(HeadingLine, block.heading, 1, page, finalY);
    finalY := finalY + HeadingStep;
    var body := LayOutParagraphs(Cursor(finalY, page), block.paragraphs, wrap);
    r := Layout(Cursor(body.cursor.y + BlockGap, body.cursor.page), [heading] + body.placed);
  }

  /** The layout of the section as the export runs it: the caption after the
      break check, then the loop over the points. */
  method Paginate(tableFinalY: real, tablePages: nat, blocks: seq<DetailBlock>, wrap: string -> nat)
    returns (layout: Layout)
    ensures layout == LayoutDetails(tableFinalY, tablePages, blocks, wrap)
  {
    var finalY := tableFinalY + TableGap;
    var page := tablePages;
    if finalY > HeadingLimit {
      page := page + 1;
      finalY := TopMargin;
    }
    var caption := [Placement(CaptionLine, Caption, 1, page, finalY)];
    finalY := finalY + CaptionStep;
    ghost var start := Cursor(finalY, page);

    var cursor := Cursor(finalY, page);
    var placed := [];
    var i := 0;
    while i < |blocks|
      invariant 0 <= i <= |blocks|
      invariant Layout(cursor, placed) == PlaceBlocks(start, blocks[..i], wrap)
    {
      var next := LayOutBlock(cursor, blocks[i], wrap);
      cursor := next.cursor;
      placed := placed + next.placed;
      assert blocks[..i + 1][..i] == blocks[..i];
      i := i + 1;
    }
    assert blocks[..i] == blocks;
    layout := Layout(cursor, caption + placed);
  }
}
