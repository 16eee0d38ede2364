/** Photo upload: `handleFiles` takes the files dropped on (or chosen through)
    a section's drop zone, keeps those whose MIME type starts with `image/`,
    and appends one preview entry per kept file, in order, to the section's
    preview container. Each entry has a remove button that deletes it. */
module Upload {
  import opened Common

  /** A file as handed over by one drop or selection. `objectUrl` is the URL
      that `URL.createObjectURL` returns for it in that call; the browser mints
      a fresh one on every call, so the model takes it as part of the value. */
  datatype File = File(mimeType: string, objectUrl: string)

  /** One preview entry: the image source and the text of its caption input. */
  datatype PhotoItem = PhotoItem(src: string, caption: string)

  const ImagePrefix: string := "image/"

  predicate IsImage(f: File)
  {
    StartsWith(f.mimeType, ImagePrefix)
  }

  /** The files `handleFiles` accepts, in the order they were given. */
  function ImageFiles(files: seq<File>): (r: seq<File>)
    ensures |r| <= |files|
    ensures forall f :: f in r <==> f in files && IsImage(f)
  {
    if files == [] then []
    else (if IsImage(files[0]) then [files[0]] else []) + ImageFiles(files[1..])
  }

  /** The preview entry created for an accepted file: its object URL and an empty caption. */
  function NewItem(f: File): PhotoItem
  {
    PhotoItem(f.objectUrl, "")
  }

  function Previews(files: seq<File>): (r: seq<PhotoItem>)
    ensures |r| == |files|
    ensures forall k :: 0 <= k < |files| ==> r[k] == NewItem(files[k])
  {
    seq(|files|, k requires 0 <= k < |files| => NewItem(files[k]))
  }

  lemma PreviewsAppend(a: seq<File>, b: seq<File>)
    ensures Previews(a + b) == Previews(a) + Previews(b)
  {
  }

  /** Filtering a concatenation filters each part: nothing is reordered. */
  lemma {:induction false} ImageFilesAppend(a: seq<File>, b: seq<File>)
    ensures ImageFiles(a + b) == ImageFiles(a) + ImageFiles(b)
  {
    if a == [] {
      assert a + b == b;
    } else {
      assert (a + b)[1..] == a[1..] + b;
      ImageFilesAppend(a[1..], b);
    }
  }

  /** Dropping only images keeps every one of them, unchanged and in order. */
  lemma {:induction false} ImageFilesKeepsImages(files: seq<File>)
    requires forall k :: 0 <= k < |files| ==> IsImage(files[k])
    ensures ImageFiles(files) == files
  {
    if files != [] {
      ImageFilesKeepsImages(files[1..]);
    }
  }

  /** Filtering twice is filtering once. */
  lemma {:induction false} ImageFilesIdempotent(files: seq<File>)
    ensures ImageFiles(ImageFiles(files)) == ImageFiles(files)
  {
    var r := ImageFiles(files);
    forall k | 0 <= k < |r|
      ensures IsImage(r[k])
    {
      assert r[k] in r;
    }
    ImageFilesKeepsImages(r);
  }

  /** The number of accepted files is the number of image-typed files. */
  function CountImages(files: seq<File>): nat
  {
    if files == [] then 0 else (if IsImage(files[0]) then 1 else 0) + CountImages(files[1..])
  }

  lemma {:induction false} ImageFilesCount(files: seq<File>)
    ensures |ImageFiles(files)| == CountImages(files)
  {
    if files != [] {
      ImageFilesCount(files[1..]);
    }
  }

  /** A section's `.photo-preview` container. */
  class PhotoPreview {
    var items: seq<PhotoItem>

    constructor ()
      ensures items == []
    {
      items := [];
    }

    /** `handleFiles(files, previewContainer)`: appends one entry per image file, in input order. */
    method HandleFiles(files: seq<File>)
      modifies this
      ensures items == old(items) + Previews(ImageFiles(files))
    {
      var i := 0;
      while i < |files|
        invariant 0 <= i <= |files|
        invariant items == old(items) + Previews(ImageFiles(files[..i]))
      {
        assert files[..i + 1] == files[..i] + [files[i]];
        ImageFilesAppend(files[..i], [files[i]]);
        ghost var kept := ImageFiles([files[i]]);
        assert kept == if IsImage(files[i]) then [files[i]] else [];
        PreviewsAppend(ImageFiles(files[..i]), kept);
        if IsImage(files[i]) {
          items := items + [NewItem(files[i])];
        }
        i := i + 1;
      }
      assert files[..i] == files;
    }

    /** The remove button of entry `k`: `photoItem.remove()`. */
    method Remove(k: nat)
      requires k < |items|
      modifies this
      ensures items == old(items)[..k] + old(items)[k + 1..]
    {
      items := items[..k] + items[k + 1..];
    }
  }
}
