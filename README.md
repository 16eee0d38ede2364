# Weekly inspection report form, modelled in Dafny

The system is a browser form for a building's weekly owner inspection. For each
section of the form, the inspector picks a status (acceptable or not
acceptable), writes notes and drops photos with captions. The inspector then
signs on a canvas and submits. Submission collects the form into report data
and lays it out as a paginated PDF, which is downloaded as
`Building1-Inspection-<date>.pdf`.

The model covers the parts of `script.js` that carry logic:

- `common.dfy` (`Common`): an option type, `startsWith`, and decimal
  rendering of a number. Decimal rendering is proved to round-trip, so
  default captions are unambiguous.
- `upload.dfy` (`Upload`): `handleFiles` keeps the image-typed files in order
  and appends one preview entry per kept file to the section's preview
  container. The container is a class whose entry list the method updates.
  The remove button deletes one entry.
- `signature_pad.dfy` (`SignaturePad`): the `isDrawing` flag and the canvas
  path, as a class. `startDrawing`, `draw`, `stopDrawing` and the clear
  button are its methods. A whole mouse gesture is proved to paint exactly
  the polyline through its points.
- `form_data.dfy` (`FormData`): `collectFormData` as a method with two
  nested loops, proved against a complete description of its result. An
  unchecked status becomes `not-set`. An empty inspector name becomes
  `Not provided`. An empty caption becomes `Photo N` (1-based). Photo order is
  kept.
- `report.dfy` (`Report`): `generatePDF`. The layout is specified as a fold of
  pure functions that threads the document and the cursor `yPos`
  (`PlacePhoto`, `PlaceNotes`, `SectionOpening`, `PlaceSection`,
  `PlaceSections`, `Render`). `GeneratePdf` is the imperative pass. Its two
  `forEach` callbacks are the methods `DrawSection` and `DrawPhoto`, each
  taking and returning the document and `yPos` it closes over. All three are
  proved equal to the fold. The PDF library appears only
  through what the layout depends on: a page count and the list of drawn
  items, each tagged with its page. Two of the library's answers are inputs
  (`Backend`): how many lines `splitTextToSize` wraps the notes into, and
  whether `addImage` accepts an image source.
- `report_props.dfy` (`ReportProperties`): what the layout guarantees. These
  cover page breaks, header and status placement, photo bounds, fallback
  lines, cursor arithmetic, page counts, and the absence of blank pages.

Four behaviours of the code a reader may not expect, all modelled as written:

- Defaults replace only the empty string. `caption || ...` and
  `value || 'Not provided'` keep a caption or name made only of spaces.
- The signature page is added whenever the signature string is non-empty. In
  the browser, `canvas.toDataURL()` always returns a non-empty data URL, even
  for a blank canvas.
- A signature whose `addImage` throws is not caught, so the submission fails
  and nothing is saved. `Render` returns `None` in that case.
- A mouse-down followed by mouse-up with no movement paints nothing.
  `lineTo` on an empty path only sets the current point.

## Model

| member | source | states |
|---|---|---|
| `Common.DecimalString` | script.js:175 | the number as decimal digits, at least one, with no leading zero |
| `Common.ParseDecimalString` | script.js:175 | reading the decimal rendering back gives the number (round trip) |
| `Common.DecimalStringInjective` | script.js:175 | distinct numbers render differently |
| `Upload.ImageFiles` | script.js:37-38 | a file is kept exactly when it was given and its type starts with `image/` |
| `Upload.ImageFilesAppend` | script.js:37-38 | filtering a concatenation is the concatenation of the filtered parts, so input order is kept |
| `Upload.ImageFilesKeepsImages` | script.js:38 | a drop of images only is kept whole and in order |
| `Upload.ImageFilesIdempotent` | script.js:38 | filtering the kept files again changes nothing |
| `Upload.ImageFilesCount` | script.js:37-38 | as many files are kept as there are image-typed files |
| `Upload.PhotoPreview.HandleFiles` | script.js:36-62 | the container's entries become the old entries followed by one new entry (object URL, empty caption) per image file, in input order |
| `Upload.PhotoPreview.Remove` | script.js:53 | removing entry k leaves the others, in order |
| `SignaturePad.StrokeTo` | script.js:131-134 | one draw paints one segment from the path's current point to the new point when the path has a current point, and nothing otherwise |
| `SignaturePad.Pad.constructor` | script.js:67 | the pad starts idle with an empty path and a blank canvas |
| `SignaturePad.Pad.StartDrawing` | script.js:112-115 | sets the flag and moves the path to the point; from idle nothing is painted |
| `SignaturePad.Pad.Draw` | script.js:117-135 | changes nothing while not drawing; while drawing paints to the point and moves the path there |
| `SignaturePad.Pad.StopDrawing` | script.js:137-140 | clears the flag and the path and keeps the ink |
| `SignaturePad.Pad.Clear` | script.js:142-144 | erases the ink and leaves the flag and the path as they were |
| `SignaturePad.Pad.Gesture` | script.js:81-84 | mouse-down, moves, mouse-up from idle paint exactly the polyline through the points and end idle |
| `FormData.InspectorName` | script.js:158 | never empty; a non-empty name is kept, an empty one becomes `Not provided` |
| `FormData.StatusValue` | script.js:166-167 | the checked radio's value, or `not-set` when none is checked |
| `FormData.Caption` | script.js:172-175 | never empty; a non-empty caption is kept, an empty one becomes `Photo ` and the 1-based position |
| `FormData.DefaultCaptionsDistinct` | script.js:175 | entries at different positions get different default captions |
| `FormData.CollectFormData` | script.js:154-188 | one section per form section in order, with heading, notes, status value and photos in entry order with source and defaulted caption; inspector name defaulted |
| `FormData.CollectedIsUnique` | script.js:154-188 | the contract of `CollectFormData` determines its result completely |
| `Report.StatusText` | script.js:217-218 | the tick line exactly for `acceptable`, the cross line exactly for `not-acceptable`, `Status: Not Set` exactly for anything else |
| `Report.DatePart` | script.js:260 | the longest prefix of the ISO time without a `T`, followed in the input by a `T` or the end |
| `Report.BreakIfPast` | script.js:205-208 | past the limit: one new page, the cursor back at 20, nothing drawn; otherwise nothing changes |
| `Report.PlacePhoto` | script.js:233-245 | earlier items kept; one new page exactly when the cursor is past 180; two items and cursor +50 when the image is accepted, one item and cursor +10 when not, counted from 20 after a break (the items themselves: `PhotoPlacement`) |
| `Report.PlacePhotos` | script.js:232-246 | earlier items kept; at most one new page and one or two items per photo; the cursor never above the top margin (the items, in input order: `PhotosInOrder`) |
| `Report.PlaceNotes` | script.js:225-229 | non-empty notes: one wrapped block at the cursor on the current page, cursor + lines*5 + 10; empty notes: nothing; never a new page |
| `Report.SectionOpening` | script.js:205-229 | earlier items kept; one new page exactly when the cursor is past 250; on the current page the header at the cursor (20 after a break), the status line 8 below, and non-empty notes 18 below as one wrapped block; the cursor ends 18 below the header, plus lines*5 + 10 for non-empty notes |
| `Report.PlaceSection` | script.js:204-249 | earlier items kept; at least two items plus one per photo added; a page for the 250 check and at most one more per photo; the cursor never above the top margin (the header and status items: `SectionHeaderPlacement`; the photos and the trailing 10: `SectionPhotosInOrder`) |
| `Report.PlaceSections` | script.js:204-249 | the sections in order: earlier items kept, at least two items per section, pages never removed |
| `Report.TitleBlock` | script.js:192-202 | a one-page document holding exactly the title at 20, `Generated: ` and the timestamp at 35 and `Inspector: ` and the name at 45, with the cursor at 60 below them |
| `Report.FileName` | script.js:260 | `Building1-Inspection-`, then the date part of the ISO time, then `.pdf` |
| `Report.Body` | script.js:192-249 | the title block's three lines first, then at least two items per section; at least one page |
| `Report.Render` | script.js:190-261 | no save exactly when a non-empty signature's image is rejected; with no signature exactly the body is saved; with an accepted signature the body followed by a new page holding only the `Inspector Signature:` heading at 30 and the PNG image at (20, 40, 100, 50); always under the dated name |
| `Report.DrawPhoto` | script.js:232-246 | the photo callback, run on the document and cursor, does what `PlacePhoto` describes |
| `Report.DrawSection` | script.js:204-249 | the section callback, with its loop over the photos, does what `PlaceSection` describes |
| `Report.GeneratePdf` | script.js:190-261 | the imperative pass saves exactly what the layout fold `Render` describes |
| `ReportProperties.PlaceSectionsExtends` | script.js:204-249 | laying out sections only appends drawn items and pages, adds at most one page per section and per photo, and keeps the cursor at or below the top margin |
| `ReportProperties.SectionHeaderPlacement` | script.js:205-222 | a new page with the cursor reset to 20 exactly when the cursor is past 250; the header is drawn there and the status line on the same page 8 below |
| `ReportProperties.HeadersInOrder` | script.js:204-222 | every section's header and status line appear in section order, each header at most 250 down its page |
| `ReportProperties.NotesPlacement` | script.js:225-229 | non-empty notes advance the cursor by lines*5 + 10 and empty notes change nothing; notes never break a page |
| `ReportProperties.PhotoPlacement` | script.js:233-245 | a new page exactly when the cursor is past 180; the row starts at a y between 20 and 180; a placed image draws image and caption and advances 50, a failure draws `Photo: caption` and advances 10 |
| `ReportProperties.PhotosInAreaInReport` | script.js:233-239 | every photo image in the report has its top between 20 and 180 and its bottom at most 220 |
| `ReportProperties.PhotoMarkCount` | script.js:238-245 | photos draw two items per placed image and one per failure |
| `ReportProperties.PhotosInOrder` | script.js:232-246 | the photos' items follow what came before, back to back and in input order, each photo as its JPEG image with the caption 20 lower at x 80 on the same page, or as its `Photo: caption` line; nothing else is drawn; the cursor ends one row (50 or 10) below the top of the last photo's row |
| `ReportProperties.SectionPhotosInOrder` | script.js:231-248 | after a section's opening come exactly its photos, in input order and with nothing between them; the section ends 10 below where the last photo (or, with no photos, the opening) left the cursor, also when a photo started a new page |
| `ReportProperties.FailedPhotosFallBack` | script.js:238-246 | when every image fails, each photo still yields its `Photo: caption` line, in order, and nothing else is drawn |
| `ReportProperties.PlaceSectionsAppend` | script.js:204-249 | laying out two runs of sections is laying out the first and then the second from where it ended |
| `ReportProperties.PhotosWithoutBreak` | script.js:232-246 | photos with no page break advance the cursor by the sum of their rows |
| `ReportProperties.SectionsWithoutBreak` | script.js:204-249 | sections with no page break advance the cursor by the sum of their heights |
| `ReportProperties.BreakBeforeSection` | script.js:205-208 | a section that starts past 250 adds a page |
| `ReportProperties.OverflowForcesBreak` | script.js:204-208 | if the sections before some section are taller than what fits above 250, a page is added |
| `ReportProperties.LongReportHasSecondPage` | script.js:202-208 | such a report has at least two pages |
| `ReportProperties.OneSectionNeverBreaks` | script.js:204-249 | a single section without photos stays on page 1 whatever its notes, with the cursor ending at 60 plus its height |
| `ReportProperties.TallNotesRunPastPage` | script.js:225-229 | notes wrapping into 100 lines are drawn from 78 on page 1, run past the 297 page bottom, and no second page is started |
| `ReportProperties.PhotosPageCount` | script.js:233-236 | photo layout adds exactly one page per firing of the 180 check |
| `ReportProperties.SectionAdvance` | script.js:204-248 | a section in which no photo starts a page ends exactly its height (8 + 10 + notes + photo rows + 10) below where its header went, at the cursor or at 20 after a section break |
| `ReportProperties.SectionsPageCount` | script.js:204-249 | section layout adds exactly one page per section break plus one per photo break |
| `ReportProperties.ReportPageCount` | script.js:202-258 | a saved report has 1 + section breaks + photo breaks + (1 if the signature is non-empty) pages |
| `ReportProperties.RenderPages` | script.js:202-260 | the body has between 1 and 1 + sections + photos pages; saving fails exactly when a non-empty signature's image is rejected; the signature adds one page; the file name carries the date |
| `ReportProperties.SinglePageWhenNoBreak` | script.js:202-249 | a one-page body puts everything on page 1 and ends with the cursor at 60 plus the sections' heights |
| `ReportProperties.SavedReportHasNoBlankPage` | script.js:205-257 | every page of a saved report has something on it, and nothing is drawn on a page that does not exist |
| `ReportProperties.CollectedStatusText` | script.js:217-218 | an unchecked section prints `Status: Not Set`, a section checked acceptable or not acceptable prints its line |
| `ReportProperties.ReportHeadLines` | script.js:154-200 | the saved report's first three items are the title, the submission time and the inspector name as collected, `Not provided` when left empty, all on page 1 |
| `ReportProperties.SignatureInReport` | script.js:251-257 | an accepted non-empty signature is saved as the last two items, its heading and its image, on the last page and alone there |
| `ReportProperties.SingleSectionReport` | script.js:190-260 | one section with no photos and no signature: one page with the header at 60, the status at 68 and the notes at 78, under the dated name |

## Left out

- DOM and event wiring: the drop-zone, click, drag, drop, change, mouse,
  touch and submit listeners. These only route events to the modelled
  handlers. Touch events are forwarded as mouse events, so they reach the
  same handlers.
- Element creation in `handleFiles`. `URL.createObjectURL` is not modelled.
  The browser mints a fresh URL on every call, so each drop gives each file a
  new one. The model takes it as part of the `File` value of that drop, so
  the same file dropped twice is two `File` values with different URLs.
- Editing a caption in its input box is browser input. `collectFormData`
  reads whatever text the box holds.
- Coordinate rescaling in `draw` and `resizeCanvas`. Both are floating-point
  arithmetic over sizes the browser reports. Points reach the pad already in
  canvas coordinates.
- The canvas pixels, line style, `toDataURL` and the raster format. The pad
  records the painted segments instead.
- `updateDateTime`, `toLocaleString` and `toISOString`. The timestamp, the
  ISO time and the signature data URL are inputs.
- The PDF library. Fonts and font sizes do not move the cursor. How
  `splitTextToSize` wraps text and when `addImage` throws are inputs.
- The `async`/`await` around submission. There is no concurrency.
- LongReportHasSecondPage: it does not promise a second page for every
  report taller than one page, because the code does not. Only the checks
  before a section (past 250) and before a photo (past 180) start a page.
  Notes never do (script.js:225-229). The lemma therefore needs a later
  section that starts past 250. `TallNotesRunPastPage` shows a one-page report
  whose notes run past the bottom of the page.
