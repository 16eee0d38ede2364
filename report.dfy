/** `generatePDF`: lays the report data out on a paginated document in one
    pass. A vertical cursor starts at 60 below the title block; before each
    section a new page is started when the cursor is past 250, before each
    photo when it is past 180. A photo whose image cannot be placed falls back
    to a one-line caption and the pass goes on. A non-empty signature gets a
    page of its own, then the document is saved under a dated file name.

    The document library is modelled by what layout depends on: its page
    count and the list of things drawn, each with its page. Its two answers
    that the code uses are inputs (`Backend`). */
module Report {
  import opened Common
  import opened FormData

  // Coordinates of generatePDF, in the document's default unit.
  const LeftMargin: int := 20
  const TitleY: int := 20
  const GeneratedY: int := 35
  const InspectorY: int := 45
  const StartY: int := 60
  const TopMargin: int := 20
  const SectionBreakY: int := 250
  const HeaderAdvance: int := 8
  const StatusAdvance: int := 10
  const NoteLineHeight: int := 5
  const NotesPadding: int := 10
  const PhotoBreakY: int := 180
  const ImageWidth: int := 50
  const ImageHeight: int := 40
  const CaptionX: int := 80
  const CaptionDy: int := 20
  const ImageRow: int := 50
  const FallbackRow: int := 10
  const SectionPadding: int := 10
  const SignatureHeadingY: int := 30
  const SignatureY: int := 40
  const SignatureWidth: int := 100
  const SignatureHeight: int := 50

  const Title: string := "Building 1 – Owner Weekly Inspection Report"
  const AcceptableText: string := "✓ ACCEPTABLE"
  const NotAcceptableText: string := "✗ NOT ACCEPTABLE"
  const NotSetText: string := "Status: Not Set"
  const FallbackPrefix: string := "Photo: "
  const SignatureHeading: string := "Inspector Signature:"
  const PhotoFormat: string := "JPEG"
  const SignatureFormat: string := "PNG"
  const FilePrefix: string := "Building1-Inspection-"
  const FileSuffix: string := ".pdf"

  /** Something drawn: a text line, the wrapped notes (as many lines as the
      library's word wrap made of them), or an image with its box. */
  datatype Item =
    | Text(text: string, x: int, y: int)
    | Lines(text: string, count: nat, x: int, y: int)
    | Image(src: string, format: string, x: int, y: int, w: int, h: int)

  /** An item and the 1-based page it was drawn on. */
  datatype Mark = Mark(page: nat, item: Item)

  /** The document: how many pages it has (the last is the current one) and
      everything drawn so far, in drawing order. */
  datatype Doc = Doc(pages: nat, marks: seq<Mark>)
  {
    /** `doc.addPage()`. */
    function AddPage(): Doc
    {
      Doc(pages + 1, marks)
    }

    /** `doc.text(...)` or `doc.addImage(...)` that succeeds: draws on the current page. */
    function Draw(item: Item): Doc
    {
      Doc(pages, marks + [Mark(pages, item)])
    }
  }

  /** `new jsPDF()`: one empty page. */
  const NewDoc: Doc := Doc(1, [])

  /** The library's answers: how many lines `splitTextToSize(notes, 170)`
      wraps a text into, and whether `addImage` accepts an image source
      (false: it throws). */
  datatype Backend = Backend(wrapLines: string -> nat, imageOk: string -> bool)

  /** The layout state threaded through the pass: the document and `yPos`. */
  datatype Cursor = Cursor(doc: Doc, y: int)

  /** The status line of a section. */
  function StatusText(status: string): (r: string)
    ensures r == AcceptableText <==> status == "acceptable"
    ensures r == NotAcceptableText <==> status == "not-acceptable"
    ensures r == NotSetText <==> status != "acceptable" && status != "not-acceptable"
  {
    if status == "acceptable" then AcceptableText
    else if status == "not-acceptable" then NotAcceptableText
    else NotSetText
  }

  /** `if (yPos > limit) { doc.addPage(); yPos = 20; }` */
  function BreakIfPast(c: Cursor, limit: int): (r: Cursor)
    ensures r.doc.marks == c.doc.marks
    ensures c.y > limit ==> r.doc.pages == c.doc.pages + 1 && r.y == TopMargin
    ensures c.y <= limit ==> r == c
  {
    if c.y > limit then Cursor(c.doc.AddPage(), TopMargin) else c
  }

  /** One photo: an optional page break, then the image with its caption
      beside it, or, when `addImage` throws, the caption alone. */
  function PlacePhoto(c: Cursor, p: Photo, be: Backend): (r: Cursor)
    ensures c.doc.marks <= r.doc.marks
    ensures r.doc.pages == c.doc.pages + (if c.y > PhotoBreakY then 1 else 0)
    ensures |r.doc.marks| == |c.doc.marks| + (if be.imageOk(p.src) then 2 else 1)
    ensures forall i :: |c.doc.marks| <= i < |r.doc.marks| ==> r.doc.marks[i].page == r.doc.pages
    ensures r.y == (if c.y > PhotoBreakY then TopMargin else c.y) + (if be.imageOk(p.src) then ImageRow else FallbackRow)
  {
    var c1 := BreakIfPast(c, PhotoBreakY);
    if be.imageOk(p.src) then
      Cursor(c1.doc.Draw(Image(p.src, PhotoFormat, LeftMargin, c1.y, ImageWidth, ImageHeight))
                   .Draw(Text(p.caption, CaptionX, c1.y + CaptionDy)),
             c1.y + ImageRow)
    else
      Cursor(c1.doc.Draw(Text(FallbackPrefix + p.caption, LeftMargin, c1.y)), c1.y + FallbackRow)
  }

  /** The photos of a section, in order. */
  function PlacePhotos(c: Cursor, photos: seq<Photo>, be: Backend): (r: Cursor)
    ensures c.doc.marks <= r.doc.marks
    ensures c.doc.pages <= r.doc.pages <= c.doc.pages + |photos|
    ensures |c.doc.marks| + |photos| <= |r.doc.marks| <= |c.doc.marks| + 2 * |photos|
    ensures c.y >= TopMargin ==> r.y >= TopMargin
    decreases |photos|
  {
    if photos == [] then c else PlacePhotos(PlacePhoto(c, photos[0], be), photos[1..], be)
  }

  /** The notes block, drawn only when the notes are non-empty. */
  function PlaceNotes(c: Cursor, notes: string, be: Backend): (r: Cursor)
    ensures r.doc.pages == c.doc.pages
    ensures notes == "" ==> r == c
    ensures notes != "" ==> r.doc.marks == c.doc.marks + [Mark(c.doc.pages, Lines(notes, be.wrapLines(notes), LeftMargin, c.y))]
    ensures notes != "" ==> r.y == c.y + be.wrapLines(notes) * NoteLineHeight + NotesPadding
  {
    if notes == "" then c
    else
      var n := be.wrapLines(notes);
      Cursor(c.doc.Draw(Lines(notes, n, LeftMargin, c.y)), c.y + n * NoteLineHeight + NotesPadding)
  }

  /** The start of a section, up to its photos: an optional page break, the
      header, the status line and the notes. */
  function SectionOpening(c: Cursor, s: Section, be: Backend): (r: Cursor)
    ensures c.doc.marks <= r.doc.marks
    ensures r.doc.pages == c.doc.pages + (if c.y > SectionBreakY then 1 else 0)
    ensures |r.doc.marks| == |c.doc.marks| + (if s.notes == "" then 2 else 3)
    ensures var y := if c.y > SectionBreakY then TopMargin else c.y;
            && r.doc.marks[|c.doc.marks|] == Mark(r.doc.pages, Text(s.name, LeftMargin, y))
            && r.doc.marks[|c.doc.marks| + 1] == Mark(r.doc.pages, Text(StatusText(s.status), LeftMargin, y + HeaderAdvance))
            && (s.notes != "" ==> r.doc.marks[|c.doc.marks| + 2]
                                   == Mark(r.doc.pages, Lines(s.notes, be.wrapLines(s.notes), LeftMargin, y + HeaderAdvance + StatusAdvance)))
            && r.y == y + HeaderAdvance + StatusAdvance
                        + (if s.notes == "" then 0 else be.wrapLines(s.notes) * NoteLineHeight + NotesPadding)
  {
    var c1 := BreakIfPast(c, SectionBreakY);
    var c2 := Cursor(c1.doc.Draw(Text(s.name, LeftMargin, c1.y)), c1.y + HeaderAdvance);
    var c3 := Cursor(c2.doc.Draw(Text(StatusText(s.status), LeftMargin, c2.y)), c2.y + StatusAdvance);
    PlaceNotes(c3, s.notes, be)
  }

  /** One section: its opening, its photos, and the trailing padding. */
  function PlaceSection(c: Cursor, s: Section, be: Backend): (r: Cursor)
    ensures c.doc.marks <= r.doc.marks
    ensures c.doc.pages + (if c.y > SectionBreakY then 1 else 0) <= r.doc.pages
    ensures r.doc.pages <= c.doc.pages + (if c.y > SectionBreakY then 1 else 0) + |s.photos|
    ensures |r.doc.marks| >= |c.doc.marks| + 2 + |s.photos|
    ensures c.y >= TopMargin ==> r.y >= TopMargin
  {
    var c5 := PlacePhotos(SectionOpening(c, s, be), s.photos, be);
    Cursor(c5.doc, c5.y + SectionPadding)
  }

  /** The sections, in order. */
  function PlaceSections(c: Cursor, sections: seq<Section>, be: Backend): (r: Cursor)
    ensures c.doc.marks <= r.doc.marks
    ensures c.doc.pages <= r.doc.pages
    ensures |r.doc.marks| >= |c.doc.marks| + 2 * |sections|
    ensures c.y >= TopMargin ==> r.y >= TopMargin
    decreases |sections|
  {
    if sections == [] then c else PlaceSections(PlaceSection(c, sections[0], be), sections[1..], be)
  }

  /** Page 1's title and metadata; the cursor then stands at 60. */
  function TitleBlock(data: ReportData): (r: Cursor)
    ensures r.doc.pages == 1 && r.y == StartY
    ensures |r.doc.marks| == 3
    ensures r.doc.marks == [ Mark(1, Text(Title, LeftMargin, TitleY)),
                             Mark(1, Text("Generated: " + data.timestamp, LeftMargin, GeneratedY)),
                             Mark(1, Text("Inspector: " + data.inspectorName, LeftMargin, InspectorY)) ]
    ensures forall i :: 0 <= i < 3 ==> r.doc.marks[i].page == 1 && r.doc.marks[i].item.Text? && r.doc.marks[i].item.y < r.y
  {
    Cursor(NewDoc.Draw(Text(Title, LeftMargin, TitleY))
                 .Draw(Text("Generated: " + data.timestamp, LeftMargin, GeneratedY))
                 .Draw(Text("Inspector: " + data.inspectorName, LeftMargin, InspectorY)),
           StartY)
  }

  /** `iso.split('T')[0]`: everything before the first `T`. */
  function DatePart(iso: string): (r: string)
    ensures r <= iso
    ensures 'T' !in r
    ensures r == iso || iso[|r|] == 'T'
  {
    if iso == [] || iso[0] == 'T' then [] else [iso[0]] + DatePart(iso[1..])
  }

  /** The name the document is saved under, from `new Date().toISOString()`. */
  function FileName(isoNow: string): (r: string)
    ensures StartsWith(r, FilePrefix)
    ensures |r| >= |FilePrefix| + |FileSuffix| && r[|r| - |FileSuffix|..] == FileSuffix
    ensures r[|FilePrefix|..|r| - |FileSuffix|] == DatePart(isoNow)
  {
    FilePrefix + DatePart(isoNow) + FileSuffix
  }

  /** A saved document and its file name. */
  datatype Saved = Saved(fileName: string, doc: Doc)

  /** The body of the report: title block and every section. */
  function Body(data: ReportData, be: Backend): (r: Doc)
    ensures r.pages >= 1
    ensures TitleBlock(data).doc.marks <= r.marks
    ensures |r.marks| >= 3 + 2 * |data.sections|
  {
    PlaceSections(TitleBlock(data), data.sections, be).doc
  }

  /** What `generatePDF` saves. `None`: the signature's `addImage` threw,
      which nothing catches, so the submission fails and nothing is saved. */
  function Render(data: ReportData, be: Backend, isoNow: string): (r: Option<Saved>)
    ensures r.None? <==> data.signature != "" && !be.imageOk(data.signature)
    ensures r.Some? ==> r.value.fileName == FileName(isoNow)
    ensures r.Some? ==> Body(data, be).marks <= r.value.doc.marks
    ensures r.Some? ==> r.value.doc.pages == Body(data, be).pages + (if data.signature == "" then 0 else 1)
    ensures data.signature == "" ==> r == Some(Saved(FileName(isoNow), Body(data, be)))
    ensures data.signature != "" && r.Some? ==>
              var p := Body(data, be).pages + 1;
              r.value.doc.marks == Body(data, be).marks
                                   + [ Mark(p, Text(SignatureHeading, LeftMargin, SignatureHeadingY)),
                                       Mark(p, Image(data.signature, SignatureFormat, LeftMargin, SignatureY, SignatureWidth, SignatureHeight)) ]
  {
    var body := Body(data, be);
    if data.signature == "" then
      Some(Saved(FileName(isoNow), body))
    else if be.imageOk(data.signature) then
      Some(Saved(FileName(isoNow),
                 body.AddPage()
                     .Draw(Text(SignatureHeading, LeftMargin, SignatureHeadingY))
                     .Draw(Image(data.signature, SignatureFormat, LeftMargin, SignatureY, SignatureWidth, SignatureHeight))))
    else
      None
  }

  /** The callback of `section.photos.forEach`: one photo, on the document
      and cursor it closes over. */
  method DrawPhoto(doc: Doc, yPos: int, photo: Photo, be: Backend) returns (doc': Doc, yPos': int)
    ensures Cursor(doc', yPos') == PlacePhoto(Cursor(doc, yPos), photo, be)
  {
    doc', yPos' := doc, yPos;
    if yPos' > PhotoBreakY {
      doc' := doc'.AddPage();
      yPos' := TopMargin;
    }
    var placed := be.imageOk(photo.src);
    if placed {
      doc' := doc'.Draw(Image(photo.src, PhotoFormat, LeftMargin, yPos', ImageWidth, ImageHeight));
      doc' := doc'.Draw(Text(photo.caption, CaptionX, yPos' + CaptionDy));
      yPos' := yPos' + ImageRow;
    } else {
      doc' := doc'.Draw(Text(FallbackPrefix + photo.caption, LeftMargin, yPos'));
      yPos' := yPos' + FallbackRow;
    }
  }

  /** The callback of `data.sections.forEach`: one section, on the document
      and cursor it closes over. */
  method DrawSection(doc: Doc, yPos: int, section: Section, be: Backend) returns (doc': Doc, yPos': int)
    ensures Cursor(doc', yPos') == PlaceSection(Cursor(doc, yPos), section, be)
  {
    doc', yPos' := doc, yPos;
    if yPos' > SectionBreakY {
      doc' := doc'.AddPage();
      yPos' := TopMargin;
    }
    doc' := doc'.Draw(Text(section.name, LeftMargin, yPos'));
    yPos' := yPos' + HeaderAdvance;
    var statusText := StatusText(section.status);
    doc' := doc'.Draw(Text(statusText, LeftMargin, yPos'));
    yPos' := yPos' + StatusAdvance;
    if section.notes != "" {
      var lines := be.wrapLines(section.notes);
      doc' := doc'.Draw(Lines(section.notes, lines, LeftMargin, yPos'));
      yPos' := yPos' + lines * NoteLineHeight + NotesPadding;
    }

    ghost var afterNotes := Cursor(doc', yPos');
    assert afterNotes == SectionOpening(Cursor(doc, yPos), section, be);
    var j := 0;
    while j < |section.photos|
      invariant 0 <= j <= |section.photos|
      invariant PlacePhotos(Cursor(doc', yPos'), section.photos[j..], be) == PlacePhotos(afterNotes, section.photos, be)
    {
      assert section.photos[j..][1..] == section.photos[j + 1..];
      doc', yPos' := DrawPhoto(doc', yPos', section.photos[j], be);
      j := j + 1;
    }
    yPos' := yPos' + SectionPadding;
  }

  /** `generatePDF(data)`: the title block, the sections, the signature page, the save. */
  method GeneratePdf(data: ReportData, be: Backend, isoNow: string) returns (out: Option<Saved>)
    ensures out == Render(data, be, isoNow)
  {
    var doc := NewDoc;
    doc := doc.Draw(Text(Title, LeftMargin, TitleY));
    doc := doc.Draw(Text("Generated: " + data.timestamp, LeftMargin, GeneratedY));
    doc := doc.Draw(Text("Inspector: " + data.inspectorName, LeftMargin, InspectorY));
    var yPos := StartY;

    var i := 0;
    while i < |data.sections|
      invariant 0 <= i <= |data.sections|
      invariant PlaceSections(Cursor(doc, yPos), data.sections[i..], be) == PlaceSections(TitleBlock(data), data.sections, be)
    {
      assert data.sections[i..][1..] == data.sections[i + 1..];
      doc, yPos := DrawSection(doc, yPos, data.sections[i], be);
      i := i + 1;
    }

    if data.signature != "" {
      doc := doc.AddPage();
      doc := doc.Draw(Text(SignatureHeading, LeftMargin, SignatureHeadingY));
      var placed := be.imageOk(data.signature);
      if !placed {
        return None;
      }
      doc := doc.Draw(Image(data.signature, SignatureFormat, LeftMargin, SignatureY, SignatureWidth, SignatureHeight));
    }
    out := Some(Saved(FileName(isoNow), doc));
  }
}
