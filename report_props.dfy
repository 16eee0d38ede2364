/** Properties of the report layout: page breaks, where headers, status lines
    and photos land, what failed images turn into, how many pages come out,
    and how the cursor adds up when no break happens. */
module ReportProperties {
  import opened Common
  import opened FormData
  import opened Report

  /** `d` continues `c`: everything drawn stays, in place, and no page disappears. */
  ghost predicate Extends(c: Cursor, d: Cursor)
  {
    c.doc.marks <= d.doc.marks && c.doc.pages <= d.doc.pages
  }

  /** The number of photos over all sections. */
  function TotalPhotos(sections: seq<Section>): nat
  {
    if sections == [] then 0 else |sections[0].photos| + TotalPhotos(sections[1..])
  }

  /** The number of photos whose image the library accepts. */
  function PlacedCount(photos: seq<Photo>, be: Backend): nat
  {
    if photos == [] then 0 else (if be.imageOk(photos[0].src) then 1 else 0) + PlacedCount(photos[1..], be)
  }

  // ---------------------------------------------------------------------------
  // Heights of the blocks, added up independently of the pass.

  function NotesHeight(notes: string, be: Backend): int
  {
    if notes == "" then 0 else be.wrapLines(notes) * NoteLineHeight + NotesPadding
  }

  function PhotoRows(photos: seq<Photo>, be: Backend): int
  {
    if photos == [] then 0
    else (if be.imageOk(photos[0].src) then ImageRow else FallbackRow) + PhotoRows(photos[1..], be)
  }

  function SectionHeight(s: Section, be: Backend): int
  {
    HeaderAdvance + StatusAdvance + NotesHeight(s.notes, be) + PhotoRows(s.photos, be) + SectionPadding
  }

  function TotalHeight(sections: seq<Section>, be: Backend): int
  {
    if sections == [] then 0 else SectionHeight(sections[0], be) + TotalHeight(sections[1..], be)
  }

  // ---------------------------------------------------------------------------
  // The pass only adds: marks are appended, pages only grow, the cursor stays
  // at or below the top margin.

  lemma PlacePhotoExtends(c: Cursor, p: Photo, be: Backend)
    ensures Extends(c, PlacePhoto(c, p, be))
    ensures PlacePhoto(c, p, be).doc.pages == c.doc.pages + (if c.y > PhotoBreakY then 1 else 0)
    ensures c.y >= TopMargin ==> PlacePhoto(c, p, be).y >= TopMargin
  {
  }

  lemma {:induction false} PlacePhotosExtends(c: Cursor, photos: seq<Photo>, be: Backend)
    ensures Extends(c, PlacePhotos(c, photos, be))
    ensures PlacePhotos(c, photos, be).doc.pages <= c.doc.pages + |photos|
    ensures c.y >= TopMargin ==> PlacePhotos(c, photos, be).y >= TopMargin
    decreases |photos|
  {
    if photos != [] {
      PlacePhotoExtends(c, photos[0], be);
      PlacePhotosExtends(PlacePhoto(c, photos[0], be), photos[1..], be);
    }
  }

  lemma PlaceSectionExtends(c: Cursor, s: Section, be: Backend)
    ensures Extends(c, PlaceSection(c, s, be))
    ensures PlaceSection(c, s, be).doc.pages <= c.doc.pages + 1 + |s.photos|
    ensures PlaceSection(c, s, be).doc.pages >= c.doc.pages + (if c.y > SectionBreakY then 1 else 0)
    ensures c.y >= TopMargin ==> PlaceSection(c, s, be).y >= TopMargin
  {
    PlacePhotosExtends(SectionOpening(c, s, be), s.photos, be);
  }

  /** Laying out sections never removes anything, and adds at most one page
      per section and one per photo. */
  lemma {:induction false} PlaceSectionsExtends(c: Cursor, sections: seq<Section>, be: Backend)
    ensures Extends(c, PlaceSections(c, sections, be))
    ensures PlaceSections(c, sections, be).doc.pages <= c.doc.pages + |sections| + TotalPhotos(sections)
    ensures c.y >= TopMargin ==> PlaceSections(c, sections, be).y >= TopMargin
    decreases |sections|
  {
    if sections != [] {
      PlaceSectionExtends(c, sections[0], be);
      PlaceSectionsExtends(PlaceSection(c, sections[0], be), sections[1..], be);
    }
  }

  // ---------------------------------------------------------------------------
  // Section headers and status lines.

  /** At index `n` of `marks` stand the header of `s` and, right after it, its
      status line: same page, 8 below, and the header no lower than 250. */
  ghost predicate HeaderAt(marks: seq<Mark>, n: int, s: Section)
  {
    && 0 <= n && n + 1 < |marks|
    && marks[n].item == Text(s.name, LeftMargin, marks[n].item.y)
    && marks[n + 1].item == Text(StatusText(s.status), LeftMargin, marks[n].item.y + HeaderAdvance)
    && marks[n + 1].page == marks[n].page
    && marks[n].item.y <= SectionBreakY
  }

  /** A section's header goes right after what was drawn before it: on a new
      page at the top margin exactly when the cursor was past 250, otherwise
      at the cursor on the current page; its status line follows on the same
      page, 8 below. */
  lemma SectionHeaderPlacement(c: Cursor, s: Section, be: Backend)
    ensures var d := PlaceSection(c, s, be);
            var n := |c.doc.marks|;
            var broke := c.y > SectionBreakY;
            var page := if broke then c.doc.pages + 1 else c.doc.pages;
            var y := if broke then TopMargin else c.y;
            && |d.doc.marks| >= n + 2
            && d.doc.marks[n] == Mark(page, Text(s.name, LeftMargin, y))
            && d.doc.marks[n + 1] == Mark(page, Text(StatusText(s.status), LeftMargin, y + HeaderAdvance))
            && HeaderAt(d.doc.marks, n, s)
  {
    PlacePhotosExtends(SectionOpening(c, s, be), s.photos, be);
  }

  lemma HeaderAtPrefix(m: seq<Mark>, m': seq<Mark>, n: int, s: Section)
    requires HeaderAt(m, n, s) && m <= m'
    ensures HeaderAt(m', n, s)
  {
  }

  /** Every section's header and status line appear in the output, in
      section order (at strictly increasing positions), each header at most
      250 down its page and its status line on the same page, 8 below. */
  lemma {:induction false} HeadersInOrder(c: Cursor, sections: seq<Section>, be: Backend) returns (at: seq<int>)
    ensures |at| == |sections|
    ensures forall k :: 0 <= k < |sections| ==> |c.doc.marks| <= at[k] && HeaderAt(PlaceSections(c, sections, be).doc.marks, at[k], sections[k])
    ensures forall k, l :: 0 <= k < l < |at| ==> at[k] < at[l]
    decreases |sections|
  {
    if sections == [] {
      return [];
    }
    var c' := PlaceSection(c, sections[0], be);
    var m := PlaceSections(c, sections, be).doc.marks;
    assert m == PlaceSections(c', sections[1..], be).doc.marks;
    var n0 := |c.doc.marks|;
    SectionHeaderPlacement(c, sections[0], be);
    PlaceSectionsExtends(c', sections[1..], be);
    var rest := HeadersInOrder(c', sections[1..], be);
    HeaderAtPrefix(c'.doc.marks, m, n0, sections[0]);
    at := [n0] + rest;
    forall k | 0 <= k < |sections|
      ensures n0 <= at[k] && HeaderAt(m, at[k], sections[k])
    {
      if k > 0 {
        assert at[k] == rest[k - 1];
        assert sections[k] == sections[1..][k - 1];
      }
    }
  }

  // ---------------------------------------------------------------------------
  // Photos.

  /** Every photo image sits in the image area: its top edge between the top
      margin and 180, its bottom edge at most 220. */
  ghost predicate PhotosInArea(marks: seq<Mark>)
  {
    forall i :: 0 <= i < |marks| && marks[i].item.Image? && marks[i].item.format == PhotoFormat ==>
      TopMargin <= marks[i].item.y <= PhotoBreakY && marks[i].item.y + marks[i].item.h <= PhotoBreakY + ImageHeight
  }

  /** Before a photo the cursor is moved to a new page exactly when it is
      past 180, so the photo's row starts at most 180 down its page; a placed
      image and its caption advance the cursor by 50, a fallback line by 10. */
  lemma PhotoPlacement(c: Cursor, p: Photo, be: Backend)
    requires c.y >= TopMargin
    ensures var d := PlacePhoto(c, p, be);
            var n := |c.doc.marks|;
            var y := if c.y > PhotoBreakY then TopMargin else c.y;
            && TopMargin <= y <= PhotoBreakY
            && (d.doc.pages == c.doc.pages + 1 <==> c.y > PhotoBreakY)
            && (be.imageOk(p.src) ==>
                  && d.doc.marks == c.doc.marks + [Mark(d.doc.pages, Image(p.src, PhotoFormat, LeftMargin, y, ImageWidth, ImageHeight)),
                                                   Mark(d.doc.pages, Text(p.caption, CaptionX, y + CaptionDy))]
                  && d.y == y + ImageRow)
            && (!be.imageOk(p.src) ==>
                  && d.doc.marks == c.doc.marks + [Mark(d.doc.pages, Text(FallbackPrefix + p.caption, LeftMargin, y))]
                  && d.y == y + FallbackRow)
  {
  }

  lemma {:induction false} PhotosStayInArea(c: Cursor, photos: seq<Photo>, be: Backend)
    requires c.y >= TopMargin && PhotosInArea(c.doc.marks)
    ensures PhotosInArea(PlacePhotos(c, photos, be).doc.marks)
    decreases |photos|
  {
    if photos != [] {
      var d := PlacePhoto(c, photos[0], be);
      PhotoPlacement(c, photos[0], be);
      assert PhotosInArea(d.doc.marks) by {
        forall i | 0 <= i < |d.doc.marks| && d.doc.marks[i].item.Image? && d.doc.marks[i].item.format == PhotoFormat
          ensures TopMargin <= d.doc.marks[i].item.y <= PhotoBreakY && d.doc.marks[i].item.y + d.doc.marks[i].item.h <= PhotoBreakY + ImageHeight
        {
          if i < |c.doc.marks| {
            assert d.doc.marks[i] == c.doc.marks[i];
          }
        }
      }
      PhotosStayInArea(d, photos[1..], be);
    }
  }

  lemma {:induction false} SectionsStayInArea(c: Cursor, sections: seq<Section>, be: Backend)
    requires c.y >= TopMargin && PhotosInArea(c.doc.marks)
    ensures PhotosInArea(PlaceSections(c, sections, be).doc.marks)
    decreases |sections|
  {
    if sections != [] {
      var s := sections[0];
      var c4 := SectionOpening(c, s, be);
      assert PhotosInArea(c4.doc.marks) by {
        forall i | 0 <= i < |c4.doc.marks| && c4.doc.marks[i].item.Image? && c4.doc.marks[i].item.format == PhotoFormat
          ensures TopMargin <= c4.doc.marks[i].item.y <= PhotoBreakY && c4.doc.marks[i].item.y + c4.doc.marks[i].item.h <= PhotoBreakY + ImageHeight
        {
          assert i < |c.doc.marks| && c4.doc.marks[i] == c.doc.marks[i];
        }
      }
      PhotosStayInArea(c4, s.photos, be);
      PlaceSectionExtends(c, s, be);
      SectionsStayInArea(PlaceSection(c, s, be), sections[1..], be);
    }
  }

  /** No photo image of a saved report leaves the image area. */
  lemma PhotosInAreaInReport(data: ReportData, be: Backend, isoNow: string)
    ensures PhotosInArea(Body(data, be).marks)
    ensures Render(data, be, isoNow).Some? ==> PhotosInArea(Render(data, be, isoNow).value.doc.marks)
  {
    var t := TitleBlock(data);
    assert PhotosInArea(t.doc.marks);
    SectionsStayInArea(t, data.sections, be);
    var body := Body(data, be);
    if data.signature != "" && be.imageOk(data.signature) {
      var m := Render(data, be, isoNow).value.doc.marks;
      forall i | 0 <= i < |m| && m[i].item.Image? && m[i].item.format == PhotoFormat
        ensures TopMargin <= m[i].item.y <= PhotoBreakY && m[i].item.y + m[i].item.h <= PhotoBreakY + ImageHeight
      {
        assert i < |body.marks| && m[i] == body.marks[i];
      }
    }
  }

  /** Each placed photo adds two marks (image and caption), each failed one a single line. */
  lemma {:induction false} PhotoMarkCount(c: Cursor, photos: seq<Photo>, be: Backend)
    ensures |PlacePhotos(c, photos, be).doc.marks| == |c.doc.marks| + |photos| + PlacedCount(photos, be)
    decreases |photos|
  {
    if photos != [] {
      PlacePhotosExtends(c, photos, be);
      PhotoMarkCount(PlacePhoto(c, photos[0], be), photos[1..], be);
    }
  }

  /** At index `i` of `marks` stands the fallback line of photo `p`. */
  ghost predicate FallbackAt(marks: seq<Mark>, i: int, p: Photo)
  {
    0 <= i < |marks| && marks[i].item.Text? && marks[i].item.text == FallbackPrefix + p.caption && marks[i].item.x == LeftMargin
  }

  /** When no image can be placed, every photo still comes out, in order, as
      its `Photo: caption` fallback line, and nothing else is drawn. */
  lemma {:induction false} FailedPhotosFallBack(c: Cursor, photos: seq<Photo>, be: Backend)
    requires forall k :: 0 <= k < |photos| ==> !be.imageOk(photos[k].src)
    ensures |PlacePhotos(c, photos, be).doc.marks| == |c.doc.marks| + |photos|
    ensures PlacePhotos(c, photos, be).doc.marks[..|c.doc.marks|] == c.doc.marks
    ensures forall k :: 0 <= k < |photos| ==> FallbackAt(PlacePhotos(c, photos, be).doc.marks, |c.doc.marks| + k, photos[k])
    decreases |photos|
  {
    if photos != [] {
      var d := PlacePhoto(c, photos[0], be);
      var m := PlacePhotos(c, photos, be).doc.marks;
      var n := |c.doc.marks|;
      assert !be.imageOk(photos[0].src);
      assert d.doc.marks == c.doc.marks + [d.doc.marks[n]];
      FailedPhotosFallBack(d, photos[1..], be);
      assert |d.doc.marks| == n + 1;
      assert m[..n + 1] == d.doc.marks;
      assert m[..n] == m[..n + 1][..n] == c.doc.marks;
      assert PlacePhotos(c, photos, be) == PlacePhotos(d, photos[1..], be);
      forall k | 0 <= k < |photos|
        ensures FallbackAt(m, n + k, photos[k])
      {
        if k == 0 {
          assert m[n] == m[..n + 1][n] == d.doc.marks[n];
        } else {
          assert photos[k] == photos[1..][k - 1];
          assert m[n + k] == m[(n + 1) + (k - 1)];
        }
      }
    }
  }

  /** How many items a photo draws: image and caption, or the fallback line. */
  function PhotoItems(p: Photo, be: Backend): nat
  {
    if be.imageOk(p.src) then 2 else 1
  }

  /** How far a photo moves the cursor from the top of its row. */
  function PhotoRow(p: Photo, be: Backend): int
  {
    if be.imageOk(p.src) then ImageRow else FallbackRow
  }

  /** At index `i` of `marks` stand the items of photo `p`: its image with the
      caption beside it, on one page, or its `Photo: caption` line. */
  ghost predicate PhotoAt(marks: seq<Mark>, i: int, p: Photo, be: Backend)
  {
    && 0 <= i && i + PhotoItems(p, be) <= |marks|
    && (be.imageOk(p.src) ==>
          && marks[i].item == Image(p.src, PhotoFormat, LeftMargin, marks[i].item.y, ImageWidth, ImageHeight)
          && marks[i + 1] == Mark(marks[i].page, Text(p.caption, CaptionX, marks[i].item.y + CaptionDy)))
    && (!be.imageOk(p.src) ==> marks[i].item == Text(FallbackPrefix + p.caption, LeftMargin, marks[i].item.y))
  }

  lemma PhotoAtPrefix(m: seq<Mark>, m': seq<Mark>, i: int, p: Photo, be: Backend)
    requires PhotoAt(m, i, p, be) && m <= m'
    ensures PhotoAt(m', i, p, be)
  {
  }

  /** The photos come out in input order, back to back right after what was
      drawn before them, each as its image and caption or its fallback line,
      with nothing else between them; the cursor ends one row below the top
      of the last photo's row. */
  lemma {:induction false} PhotosInOrder(c: Cursor, photos: seq<Photo>, be: Backend) returns (at: seq<int>)
    ensures |at| == |photos|
    ensures var d := PlacePhotos(c, photos, be);
            && (forall k :: 0 <= k < |photos| ==> |c.doc.marks| <= at[k] && PhotoAt(d.doc.marks, at[k], photos[k], be))
            && (forall k, l :: 0 <= k < l < |at| ==> at[k] < at[l])
            && (forall k :: 0 <= k < |photos| - 1 ==> at[k] + PhotoItems(photos[k], be) == at[k + 1])
            && (photos == [] ==> d == c)
            && (photos != [] ==>
                  var last := |photos| - 1;
                  && at[0] == |c.doc.marks|
                  && at[last] + PhotoItems(photos[last], be) == |d.doc.marks|
                  && d.y == d.doc.marks[at[last]].item.y + PhotoRow(photos[last], be))
    decreases |photos|
  {
    if photos == [] {
      return [];
    }
    var n := |c.doc.marks|;
    var d0 := PlacePhoto(c, photos[0], be);
    var d := PlacePhotos(c, photos, be);
    assert d == PlacePhotos(d0, photos[1..], be);
    assert PhotoAt(d0.doc.marks, n, photos[0], be);
    PhotoAtPrefix(d0.doc.marks, d.doc.marks, n, photos[0], be);
    var rest := PhotosInOrder(d0, photos[1..], be);
    at := [n] + rest;
    forall k | 0 <= k < |photos|
      ensures n <= at[k] && PhotoAt(d.doc.marks, at[k], photos[k], be)
    {
      if k > 0 {
        assert at[k] == rest[k - 1];
        assert photos[k] == photos[1..][k - 1];
      }
    }
    forall k | 0 <= k < |photos| - 1
      ensures at[k] + PhotoItems(photos[k], be) == at[k + 1]
    {
      if k > 0 {
        assert photos[k] == photos[1..][k - 1];
      }
    }
    if |photos| == 1 {
      assert d == d0;
    } else {
      assert photos[|photos| - 1] == photos[1..][|photos| - 2];
    }
  }

  /** One section's output after its opening is exactly its photos, in input
      order and back to back, and the section ends 10 below where the last of
      them (or, without photos, the opening) left the cursor, whether or not a
      photo started a page. */
  lemma SectionPhotosInOrder(c: Cursor, s: Section, be: Backend) returns (at: seq<int>)
    ensures |at| == |s.photos|
    ensures var o := SectionOpening(c, s, be);
            var d := PlaceSection(c, s, be);
            && |d.doc.marks| == |o.doc.marks| + |s.photos| + PlacedCount(s.photos, be)
            && (forall k :: 0 <= k < |s.photos| ==> |o.doc.marks| <= at[k] && PhotoAt(d.doc.marks, at[k], s.photos[k], be))
            && (forall k, l :: 0 <= k < l < |at| ==> at[k] < at[l])
            && (forall k :: 0 <= k < |s.photos| - 1 ==> at[k] + PhotoItems(s.photos[k], be) == at[k + 1])
            && (s.photos == [] ==> d.y == o.y + SectionPadding)
            && (s.photos != [] ==>
                  var last := |s.photos| - 1;
                  && at[0] == |o.doc.marks|
                  && d.y == d.doc.marks[at[last]].item.y + PhotoRow(s.photos[last], be) + SectionPadding)
  {
    var o := SectionOpening(c, s, be);
    PhotoMarkCount(o, s.photos, be);
    at := PhotosInOrder(o, s.photos, be);
  }

  // ---------------------------------------------------------------------------
  // The cursor adds up; pages.

  /** Laying out `a + b` is laying out `a`, then `b` from where `a` left off. */
  lemma {:induction false} PlaceSectionsAppend(c: Cursor, a: seq<Section>, b: seq<Section>, be: Backend)
    ensures PlaceSections(c, a + b, be) == PlaceSections(PlaceSections(c, a, be), b, be)
    decreases |a|
  {
    if a == [] {
      assert a + b == b;
    } else {
      assert (a + b)[1..] == a[1..] + b;
      PlaceSectionsAppend(PlaceSection(c, a[0], be), a[1..], b, be);
    }
  }

  /** Photos laid out without a page break move the cursor by exactly their rows. */
  lemma {:induction false} PhotosWithoutBreak(c: Cursor, photos: seq<Photo>, be: Backend)
    requires PlacePhotos(c, photos, be).doc.pages == c.doc.pages
    ensures PlacePhotos(c, photos, be).y == c.y + PhotoRows(photos, be)
    decreases |photos|
  {
    if photos != [] {
      var d := PlacePhoto(c, photos[0], be);
      PlacePhotoExtends(c, photos[0], be);
      PlacePhotosExtends(d, photos[1..], be);
      PhotosWithoutBreak(d, photos[1..], be);
    }
  }

  /** Sections laid out without a page break move the cursor by exactly the
      sum of their heights: header 8, status 10, notes `lines*5 + 10` when
      non-empty, 50 per placed photo, 10 per failed one, and 10 of padding. */
  lemma {:induction false} SectionsWithoutBreak(c: Cursor, sections: seq<Section>, be: Backend)
    requires PlaceSections(c, sections, be).doc.pages == c.doc.pages
    ensures PlaceSections(c, sections, be).y == c.y + TotalHeight(sections, be)
    decreases |sections|
  {
    if sections != [] {
      var s := sections[0];
      var d := PlaceSection(c, s, be);
      PlaceSectionExtends(c, s, be);
      PlaceSectionsExtends(d, sections[1..], be);
      var c4 := SectionOpening(c, s, be);
      PlacePhotosExtends(c4, s.photos, be);
      PhotosWithoutBreak(c4, s.photos, be);
      SectionsWithoutBreak(d, sections[1..], be);
    }
  }

  /** A section that starts with the cursor past 250 opens a new page. */
  lemma BreakBeforeSection(c: Cursor, sections: seq<Section>, be: Backend)
    requires sections != [] && c.y > SectionBreakY
    ensures PlaceSections(c, sections, be).doc.pages > c.doc.pages
  {
    PlaceSectionExtends(c, sections[0], be);
    PlaceSectionsExtends(PlaceSection(c, sections[0], be), sections[1..], be);
  }

  /** When the sections before some section `k` are together taller than
      what fits above 250, a page break happens somewhere. */
  lemma OverflowForcesBreak(c: Cursor, sections: seq<Section>, be: Backend, k: nat)
    requires k < |sections|
    requires c.y + TotalHeight(sections[..k], be) > SectionBreakY
    ensures PlaceSections(c, sections, be).doc.pages > c.doc.pages
  {
    var a, b := sections[..k], sections[k..];
    assert sections == a + b;
    PlaceSectionsAppend(c, a, b, be);
    var m := PlaceSections(c, a, be);
    PlaceSectionsExtends(c, a, be);
    PlaceSectionsExtends(m, b, be);
    if m.doc.pages == c.doc.pages {
      SectionsWithoutBreak(c, a, be);
      BreakBeforeSection(m, b, be);
    }
  }

  /** A report whose sections do not fit below the title block has at least two pages. */
  lemma LongReportHasSecondPage(data: ReportData, be: Backend, k: nat)
    requires k < |data.sections|
    requires StartY + TotalHeight(data.sections[..k], be) > SectionBreakY
    ensures Body(data, be).pages >= 2
  {
    OverflowForcesBreak(TitleBlock(data), data.sections, be, k);
  }

  /** Height of the default page (A4 portrait, in millimetres): anything drawn
      below it is cut off. */
  const PageHeight: int := 297

  /** Only the checks before a section and before a photo start a page; the
      notes block never does. So a single section without photos stays on
      page 1 however tall its notes are. */
  lemma OneSectionNeverBreaks(data: ReportData, be: Backend)
    requires |data.sections| == 1 && data.sections[0].photos == []
    ensures Body(data, be).pages == 1
    ensures PlaceSections(TitleBlock(data), data.sections, be).y == StartY + SectionHeight(data.sections[0], be)
  {
    var c := TitleBlock(data);
    assert data.sections[1..] == [];
    assert PlaceSections(c, data.sections, be) == PlaceSection(c, data.sections[0], be);
    assert SectionOpening(c, data.sections[0], be).doc.pages == 1;
  }

  /** One section whose notes wrap into 100 lines: the body still has one
      page, and the notes block, drawn from 78 down, ends 500 lower, far below
      the bottom of that page. Overflowing the page therefore does not by
      itself give a second page; `LongReportHasSecondPage` needs a later
      section to start past 250. */
  lemma TallNotesRunPastPage(be: Backend)
    requires be.wrapLines("x") == 100
    ensures var data := ReportData("t", "n", [Section("S", "acceptable", "x", [])], "");
            && Body(data, be).pages == 1
            && Body(data, be).marks[5] == Mark(1, Lines("x", 100, LeftMargin, 78))
            && 78 + 100 * NoteLineHeight > PageHeight
            && PlaceSections(TitleBlock(data), data.sections, be).y == 598
  {
  }

  /** The pages of a report: the body has at least one and at most one per
      section and per photo beyond the first; a non-empty signature adds
      exactly one more; the save fails exactly when the signature image is
      rejected; the file name carries the date part of the ISO time. */
  lemma RenderPages(data: ReportData, be: Backend, isoNow: string)
    ensures 1 <= Body(data, be).pages <= 1 + |data.sections| + TotalPhotos(data.sections)
    ensures Render(data, be, isoNow).None? <==> data.signature != "" && !be.imageOk(data.signature)
    ensures Render(data, be, isoNow).Some? ==>
              && Render(data, be, isoNow).value.doc.pages == Body(data, be).pages + (if data.signature != "" then 1 else 0)
              && Render(data, be, isoNow).value.fileName == "Building1-Inspection-" + DatePart(isoNow) + ".pdf"
  {
    PlaceSectionsExtends(TitleBlock(data), data.sections, be);
  }

  /** The title block is all of page 1 that precedes the sections; when the
      sections fit without a break, the report body is a single page. */
  lemma SinglePageWhenNoBreak(data: ReportData, be: Backend)
    requires Body(data, be).pages == 1
    ensures PlaceSections(TitleBlock(data), data.sections, be).y == StartY + TotalHeight(data.sections, be)
    ensures forall i :: 0 <= i < |Body(data, be).marks| ==> Body(data, be).marks[i].page == 1
  {
    var t := TitleBlock(data);
    SectionsWithoutBreak(t, data.sections, be);
    MarksWithinPages(t, data.sections, be);
  }

  /** How many times the check `yPos > 180` before a photo fires. */
  function PhotoBreaks(c: Cursor, photos: seq<Photo>, be: Backend): nat
    decreases |photos|
  {
    if photos == [] then 0
    else (if c.y > PhotoBreakY then 1 else 0) + PhotoBreaks(PlacePhoto(c, photos[0], be), photos[1..], be)
  }

  /** How many times the check `yPos > 250` before a section fires. */
  function SectionBreaks(c: Cursor, sections: seq<Section>, be: Backend): nat
    decreases |sections|
  {
    if sections == [] then 0
    else (if c.y > SectionBreakY then 1 else 0) + SectionBreaks(PlaceSection(c, sections[0], be), sections[1..], be)
  }

  /** How many times the photo check fires over all sections. */
  function PhotoBreaksIn(c: Cursor, sections: seq<Section>, be: Backend): nat
    decreases |sections|
  {
    if sections == [] then 0
    else PhotoBreaks(SectionOpening(c, sections[0], be), sections[0].photos, be)
         + PhotoBreaksIn(PlaceSection(c, sections[0], be), sections[1..], be)
  }

  lemma {:induction false} PhotosPageCount(c: Cursor, photos: seq<Photo>, be: Backend)
    ensures PlacePhotos(c, photos, be).doc.pages == c.doc.pages + PhotoBreaks(c, photos, be)
    decreases |photos|
  {
    if photos != [] {
      PlacePhotoExtends(c, photos[0], be);
      PhotosPageCount(PlacePhoto(c, photos[0], be), photos[1..], be);
    }
  }

  /** A section in which no photo starts a new page ends exactly its height
      below where its header went: the cursor, or 20 after a section break. */
  lemma SectionAdvance(c: Cursor, s: Section, be: Backend)
    requires PhotoBreaks(SectionOpening(c, s, be), s.photos, be) == 0
    ensures PlaceSection(c, s, be).y == (if c.y > SectionBreakY then TopMargin else c.y) + SectionHeight(s, be)
  {
    var o := SectionOpening(c, s, be);
    PhotosPageCount(o, s.photos, be);
    PhotosWithoutBreak(o, s.photos, be);
  }

  lemma {:induction false} SectionsPageCount(c: Cursor, sections: seq<Section>, be: Backend)
    ensures PlaceSections(c, sections, be).doc.pages
              == c.doc.pages + SectionBreaks(c, sections, be) + PhotoBreaksIn(c, sections, be)
    decreases |sections|
  {
    if sections != [] {
      var s := sections[0];
      PhotosPageCount(SectionOpening(c, s, be), s.photos, be);
      SectionsPageCount(PlaceSection(c, s, be), sections[1..], be);
    }
  }

  /** The pages of a saved report: page 1, one per section break, one per
      photo break, and one for a non-empty signature. */
  lemma ReportPageCount(data: ReportData, be: Backend, isoNow: string)
    requires Render(data, be, isoNow).Some?
    ensures Render(data, be, isoNow).value.doc.pages
              == 1 + SectionBreaks(TitleBlock(data), data.sections, be)
                   + PhotoBreaksIn(TitleBlock(data), data.sections, be)
                   + (if data.signature != "" then 1 else 0)
  {
    SectionsPageCount(TitleBlock(data), data.sections, be);
  }

  /** Non-empty notes move the cursor by `lines*5 + 10` and draw one block;
      empty notes change nothing. Notes never start a page. */
  lemma NotesPlacement(c: Cursor, notes: string, be: Backend)
    ensures PlaceNotes(c, notes, be).doc.pages == c.doc.pages
    ensures PlaceNotes(c, notes, be).y == c.y + NotesHeight(notes, be)
    ensures notes == "" <==> PlaceNotes(c, notes, be) == c
  {
  }

  /** Every mark is on a page that exists. */
  ghost predicate MarksOnPages(d: Doc)
  {
    forall i :: 0 <= i < |d.marks| ==> 1 <= d.marks[i].page <= d.pages
  }

  lemma {:induction false} PhotosMarksWithinPages(c: Cursor, photos: seq<Photo>, be: Backend)
    requires MarksOnPages(c.doc) && c.doc.pages >= 1
    ensures MarksOnPages(PlacePhotos(c, photos, be).doc)
    decreases |photos|
  {
    if photos != [] {
      var d := PlacePhoto(c, photos[0], be);
      PlacePhotoExtends(c, photos[0], be);
      assert MarksOnPages(d.doc) by {
        forall i | 0 <= i < |d.doc.marks|
          ensures 1 <= d.doc.marks[i].page <= d.doc.pages
        {
          if i < |c.doc.marks| {
            assert d.doc.marks[i] == c.doc.marks[i];
          }
        }
      }
      PhotosMarksWithinPages(d, photos[1..], be);
    }
  }

  lemma {:induction false} MarksWithinPages(c: Cursor, sections: seq<Section>, be: Backend)
    requires MarksOnPages(c.doc) && c.doc.pages >= 1
    ensures MarksOnPages(PlaceSections(c, sections, be).doc)
    decreases |sections|
  {
    if sections != [] {
      var s := sections[0];
      var c4 := SectionOpening(c, s, be);
      assert MarksOnPages(c4.doc) by {
        forall i | 0 <= i < |c4.doc.marks|
          ensures 1 <= c4.doc.marks[i].page <= c4.doc.pages
        {
          if i < |c.doc.marks| {
            assert c4.doc.marks[i] == c.doc.marks[i];
          }
        }
      }
      PhotosMarksWithinPages(c4, s.photos, be);
      PlaceSectionExtends(c, s, be);
      MarksWithinPages(PlaceSection(c, s, be), sections[1..], be);
    }
  }

  /** Page `p` has something drawn on it. */
  ghost predicate PageUsed(marks: seq<Mark>, p: nat)
  {
    exists i :: 0 <= i < |marks| && marks[i].page == p
  }

  /** No page of the document is blank. */
  ghost predicate NoBlankPage(d: Doc)
  {
    forall p :: 1 <= p <= d.pages ==> PageUsed(d.marks, p)
  }

  lemma PageUsedPrefix(m: seq<Mark>, m': seq<Mark>, p: nat)
    requires PageUsed(m, p) && m <= m'
    ensures PageUsed(m', p)
  {
  }

  /** Drawing after an optional break keeps every page used: a page is only
      added right before something is drawn on it. */
  lemma DrawAfterBreak(c: Cursor, limit: int, item: Item)
    requires NoBlankPage(c.doc)
    ensures NoBlankPage(BreakIfPast(c, limit).doc.Draw(item))
  {
    var d := BreakIfPast(c, limit).doc.Draw(item);
    forall p | 1 <= p <= d.pages
      ensures PageUsed(d.marks, p)
    {
      if p <= c.doc.pages {
        PageUsedPrefix(c.doc.marks, d.marks, p);
      } else {
        assert d.marks[|d.marks| - 1].page == p;
      }
    }
  }

  lemma DrawKeepsPagesUsed(d: Doc, item: Item)
    requires NoBlankPage(d)
    ensures NoBlankPage(d.Draw(item))
  {
    forall p | 1 <= p <= d.pages
      ensures PageUsed(d.Draw(item).marks, p)
    {
      PageUsedPrefix(d.marks, d.Draw(item).marks, p);
    }
  }

  lemma {:induction false} PhotosLeaveNoBlankPage(c: Cursor, photos: seq<Photo>, be: Backend)
    requires NoBlankPage(c.doc)
    ensures NoBlankPage(PlacePhotos(c, photos, be).doc)
    decreases |photos|
  {
    if photos != [] {
      var p := photos[0];
      var c1 := BreakIfPast(c, PhotoBreakY);
      if be.imageOk(p.src) {
        var item := Image(p.src, PhotoFormat, LeftMargin, c1.y, ImageWidth, ImageHeight);
        DrawAfterBreak(c, PhotoBreakY, item);
        DrawKeepsPagesUsed(c1.doc.Draw(item), Text(p.caption, CaptionX, c1.y + CaptionDy));
      } else {
        DrawAfterBreak(c, PhotoBreakY, Text(FallbackPrefix + p.caption, LeftMargin, c1.y));
      }
      PhotosLeaveNoBlankPage(PlacePhoto(c, p, be), photos[1..], be);
    }
  }

  lemma {:induction false} SectionsLeaveNoBlankPage(c: Cursor, sections: seq<Section>, be: Backend)
    requires NoBlankPage(c.doc)
    ensures NoBlankPage(PlaceSections(c, sections, be).doc)
    decreases |sections|
  {
    if sections != [] {
      var s := sections[0];
      var c1 := BreakIfPast(c, SectionBreakY);
      var c2 := Cursor(c1.doc.Draw(Text(s.name, LeftMargin, c1.y)), c1.y + HeaderAdvance);
      var c3 := Cursor(c2.doc.Draw(Text(StatusText(s.status), LeftMargin, c2.y)), c2.y + StatusAdvance);
      DrawAfterBreak(c, SectionBreakY, Text(s.name, LeftMargin, c1.y));
      DrawKeepsPagesUsed(c2.doc, Text(StatusText(s.status), LeftMargin, c2.y));
      if s.notes != "" {
        DrawKeepsPagesUsed(c3.doc, Lines(s.notes, be.wrapLines(s.notes), LeftMargin, c3.y));
      }
      PhotosLeaveNoBlankPage(PlaceNotes(c3, s.notes, be), s.photos, be);
      SectionsLeaveNoBlankPage(PlaceSection(c, s, be), sections[1..], be);
    }
  }

  /** Every page of a saved report has something on it, and nothing is drawn
      on a page that does not exist: the page count is exactly the highest
      page anything was drawn on. */
  lemma SavedReportHasNoBlankPage(data: ReportData, be: Backend, isoNow: string)
    requires Render(data, be, isoNow).Some?
    ensures NoBlankPage(Render(data, be, isoNow).value.doc)
    ensures MarksOnPages(Render(data, be, isoNow).value.doc)
  {
    var t := TitleBlock(data);
    assert t.doc.marks[0].page == 1;
    assert NoBlankPage(t.doc);
    SectionsLeaveNoBlankPage(t, data.sections, be);
    MarksWithinPages(t, data.sections, be);
    var body := Body(data, be);
    if data.signature != "" {
      var heading := Text(SignatureHeading, LeftMargin, SignatureHeadingY);
      var image := Image(data.signature, SignatureFormat, LeftMargin, SignatureY, SignatureWidth, SignatureHeight);
      DrawAfterBreak(Cursor(body, SectionBreakY + 1), SectionBreakY, heading);
      DrawKeepsPagesUsed(body.AddPage().Draw(heading), image);
      var d := body.AddPage().Draw(heading).Draw(image);
      forall i | 0 <= i < |d.marks|
        ensures 1 <= d.marks[i].page <= d.pages
      {
        if i < |body.marks| {
          assert d.marks[i] == body.marks[i];
        }
      }
    }
  }

  // ---------------------------------------------------------------------------
  // From the form to the page.

  /** A section whose status radio was left unchecked prints `Status: Not Set`;
      one checked `acceptable` prints the tick line. */
  lemma CollectedStatusText(form: FormSnapshot, timestamp: string, signature: string, data: ReportData, i: nat)
    requires Collected(form, timestamp, signature, data)
    requires i < |form.sections|
    ensures form.sections[i].checked.None? ==> StatusText(data.sections[i].status) == NotSetText
    ensures form.sections[i].checked == Some("acceptable") ==> StatusText(data.sections[i].status) == AcceptableText
    ensures form.sections[i].checked == Some("not-acceptable") ==> StatusText(data.sections[i].status) == NotAcceptableText
  {
  }

  /** A one-section report with no photos and no signature: one page, with
      the section's header, its status line and its notes on it, saved under
      the dated file name. */
  lemma SingleSectionReport(timestamp: string, inspector: string, be: Backend, isoNow: string)
    ensures var data := ReportData(timestamp, inspector, [Section("Roof", "acceptable", "No visible damage.", [])], "");
            var n := be.wrapLines("No visible damage.");
            && Render(data, be, isoNow).Some?
            && Render(data, be, isoNow).value.doc.pages == 1
            && Render(data, be, isoNow).value.doc.marks[3..] ==
                 [ Mark(1, Text("Roof", LeftMargin, 60)),
                   Mark(1, Text(AcceptableText, LeftMargin, 68)),
                   Mark(1, Lines("No visible damage.", n, LeftMargin, 78)) ]
            && Render(data, be, isoNow).value.fileName == FileName(isoNow)
  {
  }

  /** The saved report opens with the submission time and the inspector's
      name as collected from the form, `Not provided` when the input was
      empty, on page 1 below the title. */
  lemma ReportHeadLines(form: FormSnapshot, timestamp: string, signature: string, data: ReportData, be: Backend, isoNow: string)
    requires Collected(form, timestamp, signature, data)
    requires Render(data, be, isoNow).Some?
    ensures var m := Render(data, be, isoNow).value.doc.marks;
            && |m| >= 3
            && m[0] == Mark(1, Text(Title, LeftMargin, TitleY))
            && m[1] == Mark(1, Text("Generated: " + timestamp, LeftMargin, GeneratedY))
            && m[2] == Mark(1, Text("Inspector: " + InspectorName(form.inspectorInput), LeftMargin, InspectorY))
  {
    var m := Render(data, be, isoNow).value.doc.marks;
    var t := TitleBlock(data).doc.marks;
    assert t <= Body(data, be).marks <= m;
    assert m[..3] == t;
  }

  /** A non-empty signature the library accepts ends the saved report: its
      heading and its image, alone on the last page. */
  lemma SignatureInReport(data: ReportData, be: Backend, isoNow: string)
    requires data.signature != "" && be.imageOk(data.signature)
    ensures Render(data, be, isoNow).Some?
    ensures var d := Render(data, be, isoNow).value.doc;
            && |d.marks| >= 2
            && d.marks[|d.marks| - 2] == Mark(d.pages, Text(SignatureHeading, LeftMargin, SignatureHeadingY))
            && d.marks[|d.marks| - 1] == Mark(d.pages, Image(data.signature, SignatureFormat, LeftMargin, SignatureY, SignatureWidth, SignatureHeight))
            && forall i :: 0 <= i < |d.marks| - 2 ==> d.marks[i].page < d.pages
  {
    var b := Body(data, be);
    MarksWithinPages(TitleBlock(data), data.sections, be);
    var d := Render(data, be, isoNow).value.doc;
    assert d.marks[..|b.marks|] == b.marks;
    forall i | 0 <= i < |d.marks| - 2
      ensures d.marks[i].page < d.pages
    {
      assert d.marks[i] == b.marks[i];
    }
  }
}
