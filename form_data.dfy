/** `collectFormData`: reads the form once at submission time and builds the
    report data. Every section keeps its heading and notes, gets the value of
    its checked status radio or `not-set`, and lists its photo entries in
    document order, each with its caption or, when the caption is empty,
    `Photo N` for its 1-based position. An empty inspector name becomes
    `Not provided`. */
module FormData {
  import opened Common
  import Upload

  /** What `collectFormData` reads from one `.section` element: the `h3` text,
      the textarea value, the value of the checked radio if any, and the
      section's preview entries in document order. */
  datatype SectionForm = SectionForm(heading: string, notes: string, checked: Option<string>, items: seq<Upload.PhotoItem>)

  /** The form at submission time: the inspector name input and the sections in document order. */
  datatype FormSnapshot = FormSnapshot(inspectorInput: string, sections: seq<SectionForm>)

  datatype Photo = Photo(src: string, caption: string)

  datatype Section = Section(name: string, status: string, notes: string, photos: seq<Photo>)

  /** The report data. `timestamp` is the locale-formatted time of submission
      and `signature` the canvas's data URL; both come from the browser. */
  datatype ReportData = ReportData(timestamp: string, inspectorName: string, sections: seq<Section>, signature: string)

  const NotSet: string := "not-set"
  const NoInspector: string := "Not provided"
  const CaptionPrefix: string := "Photo "

  /** `value || 'Not provided'`: only the empty string is replaced. */
  function InspectorName(input: string): (r: string)
    ensures r != ""
    ensures input != "" ==> r == input
    ensures input == "" ==> r == NoInspector
  {
    if input != "" then input else NoInspector
  }

  /** `statusRadio ? statusRadio.value : 'not-set'`. */
  function StatusValue(checked: Option<string>): (r: string)
    ensures checked.Some? ==> r == checked.value
    ensures checked.None? ==> r == NotSet
  {
    match checked
    case Some(v) => v
    case None => NotSet
  }

  /** `caption || \`Photo ${index + 1}\``: the typed caption, or the entry's 1-based position. */
  function Caption(input: string, index: nat): (r: string)
    ensures r != ""
    ensures input != "" ==> r == input
    ensures input == "" ==> r == CaptionPrefix + DecimalString(index + 1)
  {
    if input != "" then input else CaptionPrefix + DecimalString(index + 1)
  }

  /** Two entries with empty captions at different positions get different default captions. */
  lemma DefaultCaptionsDistinct(i: nat, j: nat)
    requires i != j
    ensures Caption("", i) != Caption("", j)
  {
    if Caption("", i) == Caption("", j) {
      var a, b := DecimalString(i + 1), DecimalString(j + 1);
      assert CaptionPrefix + a == CaptionPrefix + b;
      assert a == (CaptionPrefix + a)[|CaptionPrefix|..];
      assert b == (CaptionPrefix + b)[|CaptionPrefix|..];
      DecimalStringInjective(i + 1, j + 1);
    }
  }

  /** The photos of a section: one per entry, same order, same source, caption defaulted by position. */
  ghost predicate PhotosCollected(items: seq<Upload.PhotoItem>, photos: seq<Photo>)
  {
    && |photos| == |items|
    && forall j :: 0 <= j < |items| ==> photos[j] == Photo(items[j].src, Caption(items[j].caption, j))
  }

  ghost predicate SectionCollected(form: SectionForm, s: Section)
  {
    && s.name == form.heading
    && s.status == StatusValue(form.checked)
    && s.notes == form.notes
    && PhotosCollected(form.items, s.photos)
  }

  /** `data` is what `collectFormData` returns for `form`, given the browser's timestamp and signature. */
  ghost predicate Collected(form: FormSnapshot, timestamp: string, signature: string, data: ReportData)
  {
    && data.timestamp == timestamp
    && data.signature == signature
    && data.inspectorName == InspectorName(form.inspectorInput)
    && |data.sections| == |form.sections|
    && forall i :: 0 <= i < |form.sections| ==> SectionCollected(form.sections[i], data.sections[i])
  }

  /** `collectFormData()`: pushes one section per `.section` element and, inside it, one photo per entry. */
  method CollectFormData(form: FormSnapshot, timestamp: string, signature: string) returns (data: ReportData)
    ensures Collected(form, timestamp, signature, data)
  {
    var sections: seq<Section> := [];
    var i := 0;
    while i < |form.sections|
      invariant 0 <= i <= |form.sections|
      invariant |sections| == i
      invariant forall k :: 0 <= k < i ==> SectionCollected(form.sections[k], sections[k])
    {
      var section := form.sections[i];
      var status := StatusValue(section.checked);
      var photos: seq<Photo> := [];
      var j := 0;
      while j < |section.items|
        invariant 0 <= j <= |section.items|
        invariant |photos| == j
        invariant forall k :: 0 <= k < j ==> photos[k] == Photo(section.items[k].src, Caption(section.items[k].caption, k))
      {
        var item := section.items[j];
        photos := photos + [Photo(item.src, Caption(item.caption, j))];
        j := j + 1;
      }
      sections := sections + [Section(section.heading, status, section.notes, photos)];
      i := i + 1;
    }
    data := ReportData(timestamp, InspectorName(form.inspectorInput), sections, signature);
  }

  /** The contract of `CollectFormData` leaves it no freedom: it pins the result down completely. */
  lemma {:induction false} CollectedIsUnique(form: FormSnapshot, timestamp: string, signature: string, d1: ReportData, d2: ReportData)
    requires Collected(form, timestamp, signature, d1)
    requires Collected(form, timestamp, signature, d2)
    ensures d1 == d2
  {
    forall i | 0 <= i < |form.sections|
      ensures d1.sections[i] == d2.sections[i]
    {
      var s1, s2 := d1.sections[i], d2.sections[i];
      assert SectionCollected(form.sections[i], s1) && SectionCollected(form.sections[i], s2);
      assert s1.photos == s2.photos;
    }
    assert d1.sections == d2.sections;
  }
}
