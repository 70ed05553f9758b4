/** The layout rules of the CV generator in `src/lib/cvGenerator.ts`. Drawing
    is left out; what remains is the small state the generator threads through
    its draw calls (a vertical cursor, a horizontal badge cursor and the page
    count) and the choices it makes per section. Coordinates are exact reals in
    millimetres; jsPDF's `splitTextToSize` and `getTextWidth` are inputs. */
module CvLayout {
  import opened Wrappers
  import opened Seqs
  import opened Text
  import LanguagePrefs

  /** The page size `doc.internal.pageSize` reports. */
  datatype Page = Page(width: real, height: real)

  /** The vertical cursor `yPosition` and the number of pages so far. */
  datatype Cursor = Cursor(y: real, pages: nat)

  /** Where the cursor goes on a fresh page, and the space kept free at the bottom. */
  const TopMargin: real := 20.0
  const BottomMargin: real := 25.0

  // ---------------------------------------------------------------------------
  // Page breaks

  datatype BreakResult = BreakResult(cursor: Cursor, broke: bool)

  /** `checkPageBreak(required)`: when the block would reach into the bottom
      margin, a page is added and the cursor goes to the top margin. */
  function CheckPageBreak(c: Cursor, required: real, page: Page): (r: BreakResult)
    ensures r.broke <==> c.y + required > page.height - BottomMargin
    ensures r.broke ==> r.cursor == Cursor(TopMargin, c.pages + 1)
    ensures !r.broke ==> r.cursor == c
    ensures required <= page.height - BottomMargin - TopMargin ==>
              r.cursor.y + required <= page.height - BottomMargin
  {
    if c.y + required > page.height - BottomMargin then BreakResult(Cursor(TopMargin, c.pages + 1), true)
    else BreakResult(c, false)
  }

  /** The item starts of one section loop and the cursor after it. */
  datatype SectionFlow = SectionFlow(starts: seq<real>, cursor: Cursor)

  /** A block of the given height does not fit above the bottom margin at `y`. */
  predicate NeedsBreak(y: real, required: real, page: Page) {
    y + required > page.height - BottomMargin
  }

  /** Where item `i` of a section is checked: at the section's starting height
      for the first item, one item height below the previous start otherwise. */
  function CheckedAt(y0: real, starts: seq<real>, heights: seq<real>, i: nat): real
    requires i < |heights| && |starts| == |heights|
  {
    if i == 0 then y0 else starts[i - 1] + heights[i - 1]
  }

  /** The number of items of a section that are checked where they do not fit. */
  function BreakCount(y0: real, starts: seq<real>, heights: seq<real>, required: real, page: Page): nat
    requires |starts| == |heights|
    decreases |starts|
  {
    if |starts| == 0 then 0
    else (if NeedsBreak(y0, required, page) then 1 else 0)
         + BreakCount(starts[0] + heights[0], starts[1..], heights[1..], required, page)
  }

  /** Where `checkPageBreak(required)` leaves the cursor height `y`: the top
      margin of a new page when the block does not fit, `y` itself otherwise. */
  function StartAfterCheck(y: real, required: real, page: Page): real {
    if NeedsBreak(y, required, page) then TopMargin else y
  }

  /** `r` lays out the items of a section with the given heights from cursor
      `c`: each item starts where the check at its position leaves the cursor,
      one page is added per item that did not fit where it was checked, and the
      cursor ends one item height below the last start. */
  ghost predicate SectionLaidOut(c: Cursor, required: real, heights: seq<real>, page: Page, r: SectionFlow) {
    && |r.starts| == |heights|
    && (forall i {:trigger CheckedAt(c.y, r.starts, heights, i)} :: 0 <= i < |heights| ==>
          r.starts[i] == StartAfterCheck(CheckedAt(c.y, r.starts, heights, i), required, page))
    && r.cursor.pages == c.pages + BreakCount(c.y, r.starts, heights, required, page)
    && (|heights| == 0 ==> r.cursor == c)
    && (|heights| > 0 ==> r.cursor.y == r.starts[|heights| - 1] + heights[|heights| - 1])
  }

  /** One per-item `forEach` of a CV section: each item first calls
      `checkPageBreak(required)` and then draws, moving the cursor down by its
      height (the sum of its `addText` advances and fixed gaps, an input here).
      Each item starts at the top margin of a new page exactly when it does not
      fit where it is checked, and where it is checked otherwise; one page is
      added per such item. */
  function SectionLoop(c: Cursor, required: real, heights: seq<real>, page: Page): (r: SectionFlow)
    ensures SectionLaidOut(c, required, heights, page, r)
    ensures c.pages <= r.cursor.pages <= c.pages + |heights|
    ensures required <= page.height - BottomMargin - TopMargin ==>
              forall i :: 0 <= i < |heights| ==> r.starts[i] + required <= page.height - BottomMargin
    ensures r.cursor.pages == c.pages ==>
              && (|heights| > 0 ==> r.starts[0] == c.y)
              && (forall i :: 0 < i < |heights| ==> r.starts[i] == r.starts[i - 1] + heights[i - 1])
    decreases |heights|
  {
    if |heights| == 0 then SectionFlow([], c)
    else
      var checked := CheckPageBreak(c, required, page).cursor;
      var rest := SectionLoop(Cursor(checked.y + heights[0], checked.pages), required, heights[1..], page);
      SectionLoopStep(c, required, heights, page, rest);
      SectionFlow([checked.y] + rest.starts, rest.cursor)
  }

  /** The check position of a later item, seen from the rest of the section. */
  lemma CheckedAtShift(y0: real, starts: seq<real>, heights: seq<real>, i: nat)
    requires 0 < i < |heights| && |starts| == |heights|
    ensures CheckedAt(y0, starts, heights, i) == CheckedAt(starts[0] + heights[0], starts[1..], heights[1..], i - 1)
  {
    if i > 1 {
      assert starts[1..][i - 2] == starts[i - 1] && heights[1..][i - 2] == heights[i - 1];
    }
  }

  /** Laying out the first item and then the rest lays out the whole section. */
  lemma SectionLoopStep(c: Cursor, required: real, heights: seq<real>, page: Page, rest: SectionFlow)
    requires |heights| > 0
    requires var checked := CheckPageBreak(c, required, page).cursor;
             SectionLaidOut(Cursor(checked.y + heights[0], checked.pages), required, heights[1..], page, rest)
    ensures var r := SectionFlow([CheckPageBreak(c, required, page).cursor.y] + rest.starts, rest.cursor);
            && SectionLaidOut(c, required, heights, page, r)
            && c.pages <= r.cursor.pages <= c.pages + |heights|
            && (required <= page.height - BottomMargin - TopMargin ==>
                  forall i :: 0 <= i < |heights| ==> r.starts[i] + required <= page.height - BottomMargin)
            && (r.cursor.pages == c.pages ==>
                  && r.starts[0] == c.y
                  && (forall i :: 0 < i < |heights| ==> r.starts[i] == r.starts[i - 1] + heights[i - 1]))
  {
    var checked := CheckPageBreak(c, required, page).cursor;
    var r := SectionFlow([checked.y] + rest.starts, rest.cursor);
    SectionStepLaidOut(c, required, heights, page, rest, r);
    SectionLaidOutFacts(c, required, heights, page, r);
  }

  /** The start rule, page count and final cursor carry over from the rest of
      the section to the whole. */
  lemma SectionStepLaidOut(c: Cursor, required: real, heights: seq<real>, page: Page, rest: SectionFlow, r: SectionFlow)
    requires |heights| > 0
    requires var checked := CheckPageBreak(c, required, page).cursor;
             && SectionLaidOut(Cursor(checked.y + heights[0], checked.pages), required, heights[1..], page, rest)
             && r == SectionFlow([checked.y] + rest.starts, rest.cursor)
    ensures SectionLaidOut(c, required, heights, page, r)
  {
    var checked := CheckPageBreak(c, required, page).cursor;
    assert r.starts[1..] == rest.starts;
    StartsStep(c.y, checked.y, rest.starts, heights, required, page);
    if |heights| > 1 {
      assert r.cursor.y == rest.starts[|heights| - 2] + heights[1..][|heights| - 2];
    }
  }

  /** The per-item start rule of the rest of a section, shifted by the first
      item, gives the start rule of the whole section. */
  lemma StartsStep(y0: real, first: real, rest: seq<real>, heights: seq<real>, required: real, page: Page)
    requires |heights| == |rest| + 1
    requires first == StartAfterCheck(y0, required, page)
    requires forall i {:trigger CheckedAt(first + heights[0], rest, heights[1..], i)} :: 0 <= i < |rest| ==>
               rest[i] == StartAfterCheck(CheckedAt(first + heights[0], rest, heights[1..], i), required, page)
    ensures forall i {:trigger CheckedAt(y0, [first] + rest, heights, i)} :: 0 <= i < |heights| ==>
              ([first] + rest)[i] == StartAfterCheck(CheckedAt(y0, [first] + rest, heights, i), required, page)
  {
    var starts := [first] + rest;
    assert starts[1..] == rest;
    forall i | 0 < i < |heights|
      ensures starts[i] == StartAfterCheck(CheckedAt(y0, starts, heights, i), required, page)
    {
      CheckedAtShift(y0, starts, heights, i);
      assert rest[i - 1] == StartAfterCheck(CheckedAt(first + heights[0], rest, heights[1..], i - 1), required, page);
    }
  }

  /** A section lays out at most one page per item; when a block fits the usable
      page, every item has that much room above the bottom margin; and when no
      page is added, the items stack from the starting cursor. */
  lemma SectionLaidOutFacts(c: Cursor, required: real, heights: seq<real>, page: Page, r: SectionFlow)
    requires SectionLaidOut(c, required, heights, page, r)
    ensures c.pages <= r.cursor.pages <= c.pages + |heights|
    ensures required <= page.height - BottomMargin - TopMargin ==>
              forall i :: 0 <= i < |heights| ==> r.starts[i] + required <= page.height - BottomMargin
    ensures r.cursor.pages == c.pages ==>
              && (|heights| > 0 ==> r.starts[0] == c.y)
              && (forall i :: 0 < i < |heights| ==> r.starts[i] == r.starts[i - 1] + heights[i - 1])
  {
    BreakCountFacts(c.y, r.starts, heights, required, page);
    forall i | 0 <= i < |heights|
      ensures r.starts[i] == StartAfterCheck(CheckedAt(c.y, r.starts, heights, i), required, page)
    {
    }
  }

  /** No more breaks than items, and no break at all means no item was checked
      where it did not fit. */
  lemma {:induction false} BreakCountFacts(y0: real, starts: seq<real>, heights: seq<real>, required: real, page: Page)
    requires |starts| == |heights|
    ensures BreakCount(y0, starts, heights, required, page) <= |starts|
    ensures BreakCount(y0, starts, heights, required, page) == 0 ==>
              forall i :: 0 <= i < |heights| ==> !NeedsBreak(CheckedAt(y0, starts, heights, i), required, page)
    decreases |starts|
  {
    if |starts| > 0 {
      BreakCountFacts(starts[0] + heights[0], starts[1..], heights[1..], required, page);
      forall i | 0 < i < |heights|
        ensures CheckedAt(y0, starts, heights, i) == CheckedAt(starts[0] + heights[0], starts[1..], heights[1..], i - 1)
      {
        CheckedAtShift(y0, starts, heights, i);
      }
    }
  }

  // ---------------------------------------------------------------------------
  // Text

  /** The options `addText` reads: `fontSize` and the optional `maxWidth`. */
  datatype TextOptions = TextOptions(fontSize: real, maxWidth: Option<real>)

  /** `maxWidth` is truthy: present and not zero. */
  predicate Wraps(opts: TextOptions) {
    opts.maxWidth.Some? && opts.maxWidth.value != 0.0
  }

  /** The lines `addText` draws: `splitTextToSize(text, maxWidth)` when wrapping,
      the text as one line otherwise. */
  function DrawnLines(text: string, opts: TextOptions, split: (string, real) -> seq<string>): seq<string> {
    if Wraps(opts) then split(text, opts.maxWidth.value) else [text]
  }

  /** The baseline of line `index` of a text block starting at `y`. */
  function LineY(y: real, fontSize: real, index: nat): real {
    y + index as real * fontSize * 0.4
  }

  /** With a positive font size, each of the first `n` lines lies above line `n`. */
  lemma LinesAboveNext(y: real, fontSize: real, n: nat)
    ensures fontSize > 0.0 ==> forall k: nat :: k < n ==> LineY(y, fontSize, k) < LineY(y, fontSize, n)
  {
    if fontSize > 0.0 {
      forall k: nat | k < n
        ensures LineY(y, fontSize, k) < LineY(y, fontSize, n)
      {
        assert (n as real - k as real) * fontSize > 0.0;
      }
    }
  }

  /** `addText`: returns the baseline the next line would have, so every line
      drawn lies above the returned cursor and, for a positive font size, the
      cursor moves down whenever something was drawn. */
  function AddText(text: string, y: real, opts: TextOptions, split: (string, real) -> seq<string>): (r: real)
    ensures r == LineY(y, opts.fontSize, |DrawnLines(text, opts, split)|)
    ensures opts.fontSize > 0.0 ==>
              forall k :: 0 <= k < |DrawnLines(text, opts, split)| ==> LineY(y, opts.fontSize, k) < r
    ensures opts.fontSize > 0.0 && |DrawnLines(text, opts, split)| > 0 ==> r > y
    ensures !Wraps(opts) ==> r == y + opts.fontSize * 0.4
  {
    var n := |DrawnLines(text, opts, split)|;
    LinesAboveNext(y, opts.fontSize, n);
    y + n as real * opts.fontSize * 0.4
  }

  // ---------------------------------------------------------------------------
  // Badges

  /** Horizontal padding inside a badge and the gap after it. */
  const BadgePadding: real := 6.0
  const BadgeGap: real := 5.0

  /** Where a new row of badges starts. */
  const RowStart: real := 25.0

  /** `addSkillBadge(skill, x, y)` for a skill whose text is `textWidth` wide: the
      badge is drawn from `x` to `x + textWidth + 6`, and the next badge may
      start one gap after its right edge. */
  function AddSkillBadge(x: real, textWidth: real): (r: real)
    ensures r - BadgeGap == x + textWidth + BadgePadding
    ensures textWidth >= 0.0 ==> r > x
  {
    x + (textWidth + BadgePadding) + BadgeGap
  }

  /** A wrapping rule: a badge that would end past `page.width - rightMargin`,
      counting `slack` after its text, opens a new row `rowStep` lower. */
  datatype WrapRule = WrapRule(slack: real, rightMargin: real, rowStep: real)

  /** The rule of the three skill groups, and the one of project technologies. */
  const SkillRule := WrapRule(15.0, 20.0, 12.0)
  const TechRule := WrapRule(10.0, 25.0, 10.0)

  predicate Overflows(x: real, textWidth: real, rule: WrapRule, page: Page) {
    x + textWidth + rule.slack > page.width - rule.rightMargin
  }

  /** A badge as drawn: its left edge, its baseline and its width. */
  datatype Placement = Placement(x: real, y: real, width: real)

  /** The badge `p` of text width `w`, drawn by the loop body with the cursor at
      `(x, y)`: on the cursor's row exactly when it fits there, otherwise at the
      start of the next row. */
  ghost predicate PlacedFrom(x: real, y: real, p: Placement, w: real, rule: WrapRule, page: Page) {
    && (!Overflows(x, w, rule, page) ==> p.x == x && p.y == y)
    && (Overflows(x, w, rule, page) ==> p.x == RowStart && p.y == y + rule.rowStep)
  }

  /** Where the cursor stands after badge `p`: one gap past its right edge, on its row. */
  function After(p: Placement): real {
    p.x + p.width + BadgeGap
  }

  /** `placed` is a flow of badges with the given text widths, started at the row
      start of the row at `y0`: each badge is padded and placed from the cursor
      the one before it left. */
  ghost predicate Flowed(placed: seq<Placement>, textWidths: seq<real>, y0: real, rule: WrapRule, page: Page) {
    && |placed| == |textWidths|
    && (forall i :: 0 <= i < |placed| ==> placed[i].width == textWidths[i] + BadgePadding)
    && (|placed| > 0 ==> PlacedFrom(RowStart, y0, placed[0], textWidths[0], rule, page))
    && (forall i :: 0 < i < |placed| ==>
          PlacedFrom(After(placed[i - 1]), placed[i - 1].y, placed[i], textWidths[i], rule, page))
  }

  /** No two badges of one row overlap. */
  ghost predicate RowsDisjoint(placed: seq<Placement>) {
    forall i, j :: 0 <= i < j < |placed| && placed[i].y == placed[j].y ==>
      placed[i].x + placed[i].width < placed[j].x
  }

  /** Appending a badge placed by the loop body keeps the flow. */
  lemma FlowedExtend(placed: seq<Placement>, textWidths: seq<real>, w: real, y0: real, rule: WrapRule, page: Page, p: Placement)
    requires Flowed(placed, textWidths, y0, rule, page)
    requires p.width == w + BadgePadding
    requires |placed| == 0 ==> PlacedFrom(RowStart, y0, p, w, rule, page)
    requires |placed| > 0 ==> PlacedFrom(After(placed[|placed| - 1]), placed[|placed| - 1].y, p, w, rule, page)
    ensures Flowed(placed + [p], textWidths + [w], y0, rule, page)
  {
    var q := placed + [p];
    var ws := textWidths + [w];
    assert forall i :: 0 <= i < |placed| ==> q[i] == placed[i] && ws[i] == textWidths[i];
  }

  /** In a flow with a positive row step and non-negative widths, rows only
      move down, and a badge starts one gap past the right edge of every
      earlier badge on its row. */
  lemma {:induction false} FlowedMonotone(placed: seq<Placement>, textWidths: seq<real>, y0: real, rule: WrapRule, page: Page)
    requires Flowed(placed, textWidths, y0, rule, page)
    requires rule.rowStep > 0.0
    requires forall i :: 0 <= i < |textWidths| ==> textWidths[i] >= 0.0
    ensures forall i, j :: 0 <= i < j < |placed| ==> placed[i].y <= placed[j].y
    ensures forall i, j :: 0 <= i < j < |placed| && placed[i].y == placed[j].y ==>
              placed[i].x + placed[i].width + BadgeGap <= placed[j].x
    decreases |placed|
  {
    if |placed| > 1 {
      var n := |placed| - 1;
      FlowedMonotone(placed[..n], textWidths[..n], y0, rule, page);
      assert forall i :: 0 <= i < n ==> placed[..n][i] == placed[i];
      assert PlacedFrom(After(placed[n - 1]), placed[n - 1].y, placed[n], textWidths[n], rule, page);
      forall i | 0 <= i < n
        ensures placed[i].y <= placed[n].y
        ensures placed[i].y == placed[n].y ==> placed[i].x + placed[i].width + BadgeGap <= placed[n].x
      {
        assert placed[..n][i] == placed[i] && placed[..n][n - 1] == placed[n - 1];
      }
    }
  }

  /** Every badge of a flow fits the rule where it stands, unless it starts a row. */
  lemma FlowedFits(placed: seq<Placement>, textWidths: seq<real>, y0: real, rule: WrapRule, page: Page)
    requires Flowed(placed, textWidths, y0, rule, page)
    ensures forall i :: 0 <= i < |placed| ==>
              placed[i].x == RowStart || !Overflows(placed[i].x, textWidths[i], rule, page)
  {
    forall i | 0 <= i < |placed|
      ensures placed[i].x == RowStart || !Overflows(placed[i].x, textWidths[i], rule, page)
    {
      if i > 0 {
        assert PlacedFrom(After(placed[i - 1]), placed[i - 1].y, placed[i], textWidths[i], rule, page);
      }
    }
  }

  /** In a flow with a positive row step and non-negative widths, the rows lie
      at or below the starting row, only move down, a badge starts past the
      right edge of every earlier badge on its row, and a badge overflows the
      rule only when it starts a row. */
  lemma FlowedRowsDisjoint(placed: seq<Placement>, textWidths: seq<real>, y0: real, rule: WrapRule, page: Page)
    requires Flowed(placed, textWidths, y0, rule, page)
    requires rule.rowStep > 0.0
    requires forall i :: 0 <= i < |textWidths| ==> textWidths[i] >= 0.0
    ensures forall i :: 0 <= i < |placed| ==> y0 <= placed[i].y
    ensures forall i, j :: 0 <= i < j < |placed| ==> placed[i].y <= placed[j].y
    ensures forall i, j :: 0 <= i < j < |placed| && placed[i].y == placed[j].y ==>
              placed[i].x + placed[i].width + BadgeGap <= placed[j].x
    ensures forall i :: 0 <= i < |placed| ==>
              placed[i].x == RowStart || !Overflows(placed[i].x, textWidths[i], rule, page)
    ensures RowsDisjoint(placed)
  {
    FlowedMonotone(placed, textWidths, y0, rule, page);
    FlowedFits(placed, textWidths, y0, rule, page);
  }

  /** One `forEach` over a badge list: `currentX` starts at the row start; before
      each badge that would overflow, it returns to the row start and the row
      moves down one step. Returns the placements and the final cursors: the
      badges form a flow whose rows never overlap, and the cursors stand one
      gap after the last badge, on its row. */
  method FlowBadges(textWidths: seq<real>, y0: real, rule: WrapRule, page: Page)
    returns (placed: seq<Placement>, x: real, y: real)
    requires rule.rowStep > 0.0
    requires forall i :: 0 <= i < |textWidths| ==> textWidths[i] >= 0.0
    ensures Flowed(placed, textWidths, y0, rule, page)
    ensures RowsDisjoint(placed)
    ensures y0 <= y && (|placed| > 0 ==> y == placed[|placed| - 1].y)
    ensures |placed| > 0 ==> x == After(placed[|placed| - 1])
    ensures |placed| == 0 ==> x == RowStart && y == y0
  {
    placed := [];
    x := RowStart;
    y := y0;
    var i := 0;
    while i < |textWidths|
      invariant 0 <= i <= |textWidths|
      invariant Flowed(placed, textWidths[..i], y0, rule, page)
      invariant y0 <= y
      invariant i == 0 ==> x == RowStart && y == y0
      invariant i > 0 ==> y == placed[i - 1].y && x == After(placed[i - 1])
    {
      var w := textWidths[i];
      ghost var x0, y1 := x, y;
      if Overflows(x, w, rule, page) {
        x := RowStart;
        y := y + rule.rowStep;
      }
      var p := Placement(x, y, w + BadgePadding);
      assert PlacedFrom(x0, y1, p, w, rule, page);
      FlowedExtend(placed, textWidths[..i], w, y0, rule, page, p);
      assert textWidths[..i] + [w] == textWidths[..i + 1];
      placed := placed + [p];
      x := AddSkillBadge(x, w);
      i := i + 1;
    }
    assert textWidths[..i] == textWidths;
    FlowedRowsDisjoint(placed, textWidths, y0, rule, page);
  }

  // ---------------------------------------------------------------------------
  // Sections

  /** The CV data of the three capped sections. */
  datatype CvProject = CvProject(name: string, description: string, technologies: seq<string>, url: Option<string>)
  datatype CvAchievement = CvAchievement(title: string, organization: string, date: string, level: string, position: string)
  datatype CvCertificate = CvCertificate(name: string, issuer: string, date: string)

  const ProjectCap: nat := 4
  const AchievementCap: nat := 5
  const CertificateCap: nat := 8

  /** The project accent colours, in palette order: primary, accent, success, warning. */
  datatype Accent = Primary | Purple | Green | Amber
  const Palette: seq<Accent> := [Primary, Purple, Green, Amber]

  datatype ProjectRow = ProjectRow(project: CvProject, accent: Accent)

  /** `projects.slice(0, 4)`, each with `projectColors[index % 4]`. Distinct
      projects get distinct accents, since at most four are laid out. */
  function ProjectRows(projects: seq<CvProject>): (r: seq<ProjectRow>)
    ensures |r| == if |projects| < ProjectCap then |projects| else ProjectCap
    ensures forall i :: 0 <= i < |r| ==> r[i].project == projects[i] && r[i].accent == Palette[i % 4]
    ensures forall i, j :: 0 <= i < j < |r| ==> r[i].accent != r[j].accent
  {
    var shown := Take(projects, ProjectCap);
    seq(|shown|, i requires 0 <= i < |shown| => ProjectRow(shown[i], Palette[i % |Palette|]))
  }

  /** The medal drawn beside an achievement. */
  datatype Medal = Gold | Silver | Bronze

  /** Gold for a first place, silver for a second, bronze for anything else. */
  function MedalFor(position: string): (m: Medal)
    ensures m == Gold <==> Contains(position, "1st") || Contains(position, "Juara 1")
    ensures m == Silver <==>
              !(Contains(position, "1st") || Contains(position, "Juara 1"))
              && (Contains(position, "2nd") || Contains(position, "Juara 2"))
  {
    if Contains(position, "1st") || Contains(position, "Juara 1") then Gold
    else if Contains(position, "2nd") || Contains(position, "Juara 2") then Silver
    else Bronze
  }

  datatype AchievementRow = AchievementRow(achievement: CvAchievement, medal: Medal)

  /** `achievements.slice(0, 5)`, each with its medal. */
  function AchievementRows(achievements: seq<CvAchievement>): (r: seq<AchievementRow>)
    ensures |r| == if |achievements| < AchievementCap then |achievements| else AchievementCap
    ensures forall i :: 0 <= i < |r| ==>
              r[i].achievement == achievements[i] && r[i].medal == MedalFor(achievements[i].position)
  {
    var shown := Take(achievements, AchievementCap);
    seq(|shown|, i requires 0 <= i < |shown| => AchievementRow(shown[i], MedalFor(shown[i].position)))
  }

  datatype CertificateRow = CertificateRow(certificate: CvCertificate, banded: bool)

  /** The certificate section: absent for an empty list, otherwise
      `certificates.slice(0, 8)` with a background band on every even row, so
      bands alternate starting with the first row. */
  function CertificateRows(certificates: seq<CvCertificate>): (r: Option<seq<CertificateRow>>)
    ensures r.None? <==> |certificates| == 0
    ensures r.Some? ==> 0 < |r.value|
    ensures r.Some? ==> |r.value| == if |certificates| < CertificateCap then |certificates| else CertificateCap
    ensures r.Some? ==> forall i :: 0 <= i < |r.value| ==> r.value[i].certificate == certificates[i]
    ensures r.Some? ==> r.value[0].banded
    ensures r.Some? ==> forall i :: 0 < i < |r.value| ==> r.value[i].banded != r.value[i - 1].banded
  {
    if |certificates| == 0 then None
    else
      var shown := Take(certificates, CertificateCap);
      Some(seq(|shown|, i requires 0 <= i < |shown| => CertificateRow(shown[i], i % 2 == 0)))
  }

  // ---------------------------------------------------------------------------
  // Page numbers and file name

  /** The footer label of page `i` of `n`. */
  function PageLabel(i: nat, n: nat): string {
    NatToString(i) + " / " + NatToString(n)
  }

  /** The label loop: page `i` (from 1) of `pageCount` gets `"i / pageCount"`. */
  function PageLabels(pageCount: nat): (r: seq<string>)
    ensures |r| == pageCount
    ensures forall i :: 0 <= i < pageCount ==> r[i] == PageLabel(i + 1, pageCount)
  {
    seq(pageCount, i requires 0 <= i < pageCount => PageLabel(i + 1, pageCount))
  }

  /** The page number can be read back from a label: it is everything before
      the first space. */
  lemma PageLabelNumber(i: nat, n: nat)
    ensures var l := PageLabel(i, n);
            var d := |NatToString(i)|;
            && d < |l| && l[d] == ' ' && l[..d] == NatToString(i)
            && forall k :: 0 <= k < d ==> l[k] != ' '
  {
    var l := PageLabel(i, n);
    var a := NatToString(i);
    assert forall k :: 0 <= k < |a| ==> l[k] == a[k] && IsDigit(a[k]);
  }

  lemma PageLabelInjective(i: nat, j: nat, n: nat)
    requires PageLabel(i, n) == PageLabel(j, n)
    ensures i == j
  {
    PageLabelNumber(i, n);
    PageLabelNumber(j, n);
    assert |NatToString(i)| == |NatToString(j)|;
    NatToStringInjective(i, j);
  }

  /** Different pages never get the same label. */
  lemma PageLabelsDistinct(pageCount: nat, i: nat, j: nat)
    requires i < j < pageCount
    ensures PageLabels(pageCount)[i] != PageLabels(pageCount)[j]
  {
    if PageLabel(i + 1, pageCount) == PageLabel(j + 1, pageCount) {
      PageLabelInjective(i + 1, j + 1, pageCount);
    }
  }

  const CvBaseName := "CV_Al-Ghani_Desta_Setyawan"

  /** The name `downloadCV` saves under: `_ID.pdf` for Indonesian, `_EN.pdf`
      for anything else. */
  function DownloadFileName(language: LanguagePrefs.LangCode): (r: string)
    ensures |r| == |CvBaseName| + 7 && r[..|CvBaseName|] == CvBaseName
    ensures language == LanguagePrefs.Id ==> r[|CvBaseName|..] == "_ID.pdf"
    ensures language != LanguagePrefs.Id ==> r[|CvBaseName|..] == "_EN.pdf"
  {
    CvBaseName + (if language == LanguagePrefs.Id then "_ID.pdf" else "_EN.pdf")
  }

  /** The saved name tells the two languages apart. */
  lemma DownloadFileNameInjective(a: LanguagePrefs.LangCode, b: LanguagePrefs.LangCode)
    requires DownloadFileName(a) == DownloadFileName(b)
    ensures a == b
  {
    var n := |CvBaseName|;
    assert DownloadFileName(a)[n + 1] == (if a == LanguagePrefs.Id then 'I' else 'E');
    assert DownloadFileName(b)[n + 1] == (if b == LanguagePrefs.Id then 'I' else 'E');
  }
}
